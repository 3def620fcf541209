/** The encrypted over-the-air envelope: per-frame keys, ECB blocks (section 6.1 of NIST
    SP 800-38A) of an abstract block cipher, and the outbound and inbound frames around them. */
module Aes {
  import opened Wrappers
  import opened Bytes

  type Block = b: seq<byte> | |b| == 16 witness seq(16, _ => 0)

  /** A block cipher as a pair of functions of key and block. */
  datatype Cipher = Cipher(enc: (Block, Block) -> Block, dec: (Block, Block) -> Block)

  ghost predicate Invertible(ci: Cipher) {
    forall k: Block, b: Block :: ci.dec(k, ci.enc(k, b)) == b
  }

  const KEY_TAIL: seq<byte> := [0x18, 0x28, 0x45, 0x90]
  const L1_SOF: byte := 0xFC
  const CLEARTEXT_MIN: byte := 0xF0

  function FrameKey(nonce: seq<byte>, ieee: seq<byte>): Block
    requires |nonce| == 6 && |ieee| == 6
  {
    nonce + ieee + KEY_TAIL
  }

  // ------------------------------------------------------------ inverter ids

  /** Two id characters packed into one byte; each step wraps at eight bits. */
  function PackPair(h: byte, l: byte): byte { ((h as int * 16) % 256 + l + 0xD0) % 256 }

  function IdToBcd(id: seq<byte>): Option<seq<byte>> {
    if |id| != 12 then None
    else Some(seq(6, i requires 0 <= i < 6 => PackPair(id[2 * i], id[2 * i + 1])))
  }

  function HexChar(d: nat): byte
    requires d < 16
  {
    if d < 10 then 0x30 + d else 0x61 + d - 10
  }

  /** Two lower-case hex characters per byte. */
  function Hex(b: seq<byte>): seq<byte> {
    if b == [] then []
    else Hex(b[..|b| - 1]) + [HexChar(b[|b| - 1] / 16), HexChar(b[|b| - 1] % 16)]
  }

  predicate Digit(c: byte) { 0x30 <= c <= 0x39 }

  lemma PairReprintsIff(h: byte, l: byte)
    ensures HexChar(PackPair(h, l) / 16) == h && HexChar(PackPair(h, l) % 16) == l <==> Digit(h) && Digit(l)
  {
    var a, b: nat := PackPair(h, l) / 16, PackPair(h, l) % 16;
    if Digit(h) && Digit(l) {
      DigitsPack(h - 0x30, l - 0x30);
    } else if HexChar(a) == h && HexChar(b) == l {
      LettersDoNotPack(a, b);
    }
  }

  lemma DigitsPack(a: nat, b: nat)
    requires a < 10 && b < 10
    ensures PackPair(0x30 + a, 0x30 + b) == 16 * a + b
  {
    assert (16 * (0x30 + a)) % 256 == 16 * a;
  }

  lemma LettersDoNotPack(a: nat, b: nat)
    requires a < 16 && b < 16 && (a >= 10 || b >= 10)
    ensures PackPair(HexChar(a), HexChar(b)) != 16 * a + b
  {
    var top := if a < 10 then 16 * a else 16 * a - 144;
    assert (16 * (HexChar(a) as int)) % 256 == top;
  }

  lemma {:induction false} HexAt(b: seq<byte>)
    ensures |Hex(b)| == 2 * |b|
    ensures forall i :: 0 <= i < |b| ==> Hex(b)[2 * i] == HexChar(b[i] / 16) && Hex(b)[2 * i + 1] == HexChar(b[i] % 16)
  {
    if b != [] { HexAt(b[..|b| - 1]); }
  }

  /** Printing the packed form gives an id back exactly when the id is all decimal digits:
      letters, upper or lower case, do not pack to their hex values. */
  lemma IdReprintsIff(id: seq<byte>)
    requires |id| == 12
    ensures Hex(IdToBcd(id).value) == id <==> forall i :: 0 <= i < 12 ==> Digit(id[i])
  {
    hide PackPair, HexChar, Digit;
    var bcd := IdToBcd(id).value;
    var text := Hex(bcd);
    HexAt(bcd);
    forall i | 0 <= i < 6
      ensures text[2 * i] == id[2 * i] && text[2 * i + 1] == id[2 * i + 1] <==> Digit(id[2 * i]) && Digit(id[2 * i + 1])
    {
      assert bcd[i] == PackPair(id[2 * i], id[2 * i + 1]);
      PairReprintsIff(id[2 * i], id[2 * i + 1]);
    }
    if forall i :: 0 <= i < 12 ==> Digit(id[i]) {
      forall k | 0 <= k < 12 ensures text[k] == id[k] {
        assert k == 2 * (k / 2) || k == 2 * (k / 2) + 1;
      }
    }
    if text == id {
      forall k | 0 <= k < 12 ensures Digit(id[k]) {
        assert k == 2 * (k / 2) || k == 2 * (k / 2) + 1;
      }
    }
  }

  // ------------------------------------------------------------ blocks

  /** The first `n` blocks of `data`, each through `f` on its own. */
  function Ecb(f: Block -> Block, data: seq<byte>, n: nat): (r: seq<byte>)
    requires 16 * n <= |data|
    ensures |r| == 16 * n
  {
    if n == 0 then [] else Ecb(f, data, n - 1) + f(data[16 * (n - 1)..16 * n])
  }

  lemma {:induction false} EcbInverts(ci: Cipher, key: Block, data: seq<byte>, n: nat, m: nat)
    requires Invertible(ci) && m <= n && 16 * n <= |data|
    ensures var ct := Ecb(b => ci.enc(key, b), data, n);
            Ecb(b => ci.dec(key, b), ct, m) == data[..16 * m]
  {
    var ct := Ecb(b => ci.enc(key, b), data, n);
    if m > 0 {
      EcbInverts(ci, key, data, n, m - 1);
      BlockAt(b => ci.enc(key, b), data, n, m - 1);
      var blk: Block := data[16 * (m - 1)..16 * m];
      assert ct[16 * (m - 1)..16 * m] == ci.enc(key, blk);
      assert data[..16 * m] == data[..16 * (m - 1)] + blk;
    }
  }

  lemma {:induction false} BlockAt(f: Block -> Block, data: seq<byte>, n: nat, i: nat)
    requires i < n && 16 * n <= |data|
    ensures Ecb(f, data, n)[16 * i..16 * (i + 1)] == f(data[16 * i..16 * (i + 1)])
  {
    if i < n - 1 {
      BlockAt(f, data, n - 1, i);
      assert Ecb(f, data, n)[16 * i..16 * (i + 1)] == Ecb(f, data, n - 1)[16 * i..16 * (i + 1)];
    }
  }

  /** ECB over a buffer, block by block. */
  method Transform(f: Block -> Block, data: seq<byte>) returns (out: seq<byte>)
    requires |data| % 16 == 0
    ensures out == Ecb(f, data, |data| / 16)
  {
    var buf := new byte[|data|];
    var off := 0;
    while off < |data|
      invariant 0 <= off <= |data| && off % 16 == 0
      invariant buf[..off] == Ecb(f, data, off / 16)
      decreases |data| - off
    {
      ghost var done := buf[..off];
      var blk := f(data[off..off + 16]);
      forall k | 0 <= k < 16 { buf[off + k] := blk[k]; }
      assert buf[..off] == done;
      assert buf[..off + 16] == done + blk;
      assert (off + 16) / 16 == off / 16 + 1;
      off := off + 16;
    }
    out := buf[..];
    assert buf[..off] == buf[..];
  }

  // ------------------------------------------------------------ plaintext envelope

  function PaddedLength(body: seq<byte>): nat {
    var n := |body| + 1;
    if n % 16 != 0 then n + 16 - n % 16 else n
  }

  /** A one-byte length, the body, zeros up to a block boundary. */
  function Plaintext(body: seq<byte>): (r: seq<byte>)
    ensures |r| == PaddedLength(body) && |r| % 16 == 0
  {
    [|body| % 256] + body + seq(PaddedLength(body) - 1 - |body|, _ => 0)
  }

  /** The plaintext is the length byte, the body, then zeros up to the first block boundary. */
  lemma PlaintextLayout(body: seq<byte>)
    ensures var pt, n := Plaintext(body), |body|;
            && pt[0] == n % 256 && pt[1..1 + n] == body && (forall i :: 1 + n <= i < |pt| ==> pt[i] == 0)
            && 1 + n <= |pt| < 1 + n + 16 && |pt| % 16 == 0
  {
  }

  /** The frame key is the nonce, the packed id and a constant tail. */
  lemma KeyLayout(nonce: seq<byte>, ieee: seq<byte>)
    requires |nonce| == 6 && |ieee| == 6
    ensures var k := FrameKey(nonce, ieee); k[..6] == nonce && k[6..12] == ieee && k[12..] == KEY_TAIL
  {
  }

  datatype Opened = Body(body: seq<byte>) | LengthInvalid

  function DecryptCiphertext(ci: Cipher, key: Block, ct: seq<byte>): Opened {
    if |ct| == 0 || |ct| % 16 != 0 then LengthInvalid
    else
      var pt := Ecb(b => ci.dec(key, b), ct, |ct| / 16);
      if 1 + pt[0] as int > |pt| then LengthInvalid else Body(pt[1..1 + pt[0] as int])
  }

  /** A ciphertext opens exactly when it is made of whole blocks, at least one, and the length byte its
      first block decrypts to stays within it; it opens to that many bytes. */
  lemma OpensIff(ci: Cipher, key: Block, ct: seq<byte>)
    ensures DecryptCiphertext(ci, key, ct).Body? <==>
              |ct| >= 16 && |ct| % 16 == 0 && ci.dec(key, ct[..16])[0] as int < |ct|
    ensures DecryptCiphertext(ci, key, ct).Body? ==>
              |DecryptCiphertext(ci, key, ct).body| == ci.dec(key, ct[..16])[0]
  {
    if |ct| >= 16 && |ct| % 16 == 0 {
      BlockAt(b => ci.dec(key, b), ct, |ct| / 16, 0);
      var pt := Ecb(b => ci.dec(key, b), ct, |ct| / 16);
      assert pt[0] == pt[16 * 0..16 * (0 + 1)][0];
      assert ct[16 * 0..16 * (0 + 1)] == ct[..16];
    }
  }

  method Decrypt(ci: Cipher, key: Block, ct: seq<byte>) returns (r: Opened)
    ensures r == DecryptCiphertext(ci, key, ct)
  {
    if |ct| == 0 || |ct| % 16 != 0 { return LengthInvalid; }
    var pt := Transform(b => ci.dec(key, b), ct);
    var bodyLen: int := pt[0];
    if 1 + bodyLen > |pt| { return LengthInvalid; }
    r := Body(pt[1..1 + bodyLen]);
  }

  // ------------------------------------------------------------ sending

  datatype Transmit = Sent(frame: seq<byte>) | BadId | BadNonce | NoRandom

  function Ciphertext(ci: Cipher, id: seq<byte>, body: seq<byte>, nonce: seq<byte>): seq<byte>
    requires |id| == 12 && |nonce| == 6
  {
    var key := FrameKey(nonce, IdToBcd(id).value);
    Ecb(b => ci.enc(key, b), Plaintext(body), PaddedLength(body) / 16)
  }

  predicate IsBroadcastId(id: seq<byte>) { id == seq(12, _ => 0x30) }

  /** The unencrypted start of an outbound frame. */
  function Head(opcode: byte, shortAddr: nat): (h: seq<byte>)
    requires shortAddr < 0x10000
    ensures |h| == 12
  {
    [0xAA, 0xAA, 0xAA, 0xAA, opcode, shortAddr / 256, shortAddr % 256, 0, 0, 0, 0, 0xA0]
  }

  function HeadSum(opcode: byte, shortAddr: nat): (sum: nat)
    requires shortAddr < 0x10000
    ensures sum < 0x10000
  {
    SumBound(Head(opcode, shortAddr)[4..12]);
    Sum(Head(opcode, shortAddr)[4..12])
  }

  function Gate(id: seq<byte>): byte { if IsBroadcastId(id) then 0xA0 else 0xA1 }

  /** The gate byte tells a broadcast, whose id is twelve zeros, from a unicast. */
  lemma GateTellsBroadcast(id: seq<byte>)
    requires |id| == 12
    ensures Gate(id) == if forall i :: 0 <= i < 12 ==> id[i] == 0x30 then 0xA0 else 0xA1
  {
  }

  function TxFrame(opcode: byte, shortAddr: nat, gate: byte, nonce: seq<byte>, ct: seq<byte>): seq<byte>
    requires shortAddr < 0x10000
  {
    var sum := HeadSum(opcode, shortAddr);
    Head(opcode, shortAddr) + [sum / 256, sum % 256, (|ct| + 7) % 256, gate] + nonce + ct
  }

  /** Where everything is in an outbound frame: the address big-endian, an exact sixteen-bit
      checksum over the eight bytes before it, the length byte, the gate, the nonce in clear. */
  lemma TxLayout(opcode: byte, shortAddr: nat, gate: byte, nonce: seq<byte>, ct: seq<byte>)
    requires shortAddr < 0x10000 && |nonce| == 6
    ensures var f := TxFrame(opcode, shortAddr, gate, nonce, ct);
            && |f| == 22 + |ct|
            && f[..4] == [0xAA, 0xAA, 0xAA, 0xAA] && f[4] == opcode
            && 256 * (f[5] as int) + f[6] == shortAddr && f[7..12] == [0, 0, 0, 0, 0xA0]
            && 256 * (f[12] as int) + f[13] == Sum(f[4..12])
            && f[14] == (|ct| + 7) % 256 && f[15] == gate
            && f[16..22] == nonce && f[22..] == ct
  {
    hide HeadSum, Sum;
    var f, head := TxFrame(opcode, shortAddr, gate, nonce, ct), Head(opcode, shortAddr);
    assert f[4..12] == head[4..12];
    assert HeadSum(opcode, shortAddr) == Sum(head[4..12]) by { HeadSumIsSum(opcode, shortAddr); }
  }

  lemma HeadSumIsSum(opcode: byte, shortAddr: nat)
    requires shortAddr < 0x10000
    ensures HeadSum(opcode, shortAddr) == Sum(Head(opcode, shortAddr)[4..12])
  {
    hide Head;
  }

  /** The caller's nonce must be six bytes; without one, six random bytes are drawn. */
  method EncryptTx(ci: Cipher, opcode: byte, shortAddr: nat, id: seq<byte>, body: seq<byte>,
                   nonce: Option<seq<byte>>, random: Option<seq<byte>>) returns (r: Transmit)
    requires shortAddr < 0x10000 && (random.Some? ==> |random.value| == 6)
    ensures r == if |id| != 12 then BadId
                 else if nonce.Some? && |nonce.value| != 6 then BadNonce
                 else if nonce.None? && random.None? then NoRandom
                 else
                   var used := if nonce.Some? then nonce.value else random.value;
                   Sent(TxFrame(opcode, shortAddr, Gate(id), used, Ciphertext(ci, id, body, used)))
  {
    hide Ecb, Plaintext, PackPair, Sum;
    if |id| != 12 { return BadId; }
    var used: seq<byte>;
    match nonce {
      case None =>
        if random.None? { return NoRandom; }
        used := random.value;
      case Some(n6) =>
        if |n6| != 6 { return BadNonce; }
        used := n6;
    }
    var key := FrameKey(used, IdToBcd(id).value);
    var ct := Transform(b => ci.enc(key, b), Plaintext(body));
    var out := Head(opcode, shortAddr);
    var sum := Checksum(out);
    HeadSumIsSum(opcode, shortAddr);
    out := out + [sum / 256, sum % 256, (|ct| + 7) % 256, if IsBroadcastId(id) then 0xA0 else 0xA1];
    out := out + used + ct;
    r := Sent(out);
  }

  method Checksum(head: seq<byte>) returns (sum: nat)
    requires |head| == 12
    ensures sum == Sum(head[4..12])
  {
    sum := 0;
    for i := 4 to 12
      invariant sum == Sum(head[4..i])
    {
      assert head[4..i + 1][..i - 4] == head[4..i];
      sum := sum + head[i];
    }
  }

  /** What survives a one-byte length: the first |body| mod 256 bytes. */
  function Carried(body: seq<byte>): seq<byte> {
    assert |body| % 256 <= |body|;
    body[..|body| % 256]
  }

  lemma PlaintextOpens(body: seq<byte>)
    ensures var pt := Plaintext(body);
            |pt| > 0 && 1 + pt[0] as int <= |pt| && pt[1..1 + pt[0] as int] == Carried(body)
  {
    var pt := Plaintext(body);
    assert |body| % 256 <= |body|;
    assert pt[1..1 + |body|] == body;
  }

  lemma CarriedWhole(body: seq<byte>)
    ensures Carried(body) == body <==> |body| <= 255
  {
    if |body| <= 255 { assert body[..|body|] == body; }
  }

  /** Decrypting what was sent, with the key derived from the same id and nonce, gives back the
      whole body exactly when its length fits one byte, and the carried part of it otherwise. */
  lemma EnvelopeRoundTrip(ci: Cipher, id: seq<byte>, body: seq<byte>, nonce: seq<byte>)
    requires Invertible(ci) && |id| == 12 && |nonce| == 6
    ensures var back := DecryptCiphertext(ci, FrameKey(nonce, IdToBcd(id).value), Ciphertext(ci, id, body, nonce));
            && back == Body(Carried(body))
            && (back == Body(body) <==> |body| <= 255)
  {
    hide Ecb, Plaintext, PackPair, Carried, FrameKey;
    var key := FrameKey(nonce, IdToBcd(id).value);
    var pt, ct := Plaintext(body), Ciphertext(ci, id, body, nonce);
    EcbInverts(ci, key, pt, |pt| / 16, |pt| / 16);
    assert |ct| == |pt| && pt[..16 * (|pt| / 16)] == pt;
    PlaintextOpens(body);
    CarriedWhole(body);
  }

  /** The frame's own length byte is exact only for bodies up to 239 bytes. */
  lemma LengthByteExactIff(body: seq<byte>)
    ensures (PaddedLength(body) + 7) % 256 == PaddedLength(body) + 7 <==> |body| <= 239
  {
  }

  // ------------------------------------------------------------ receiving

  datatype Envelope = Envelope(shortAddr: nat, rssi: byte, lqi: byte, peer: seq<byte>, encrypted: bool, l2: seq<byte>)
  datatype ParsedL1 = Ok(env: Envelope) | ShortFrame | BadSof

  function ParseL1(raw: seq<byte>): (r: ParsedL1)
    ensures r.Ok? ==> |r.env.peer| == 6
  {
    if |raw| < 14 then ShortFrame
    else if raw[0] != L1_SOF || raw[1] != L1_SOF then BadSof
    else Ok(Envelope(256 * (raw[2] as int) + raw[3], raw[4], raw[5], raw[6..12], raw[12] < CLEARTEXT_MIN, raw[12..]))
  }

  /** A received frame is its parts: the parser gives back the address, the signal bytes, the peer and
      the rest of any frame put together from them, and calls it encrypted exactly when the rest does
      not start with a byte from 0xF0 up. */
  lemma L1Layout(shortAddr: nat, rssi: byte, lqi: byte, peer: seq<byte>, l2: seq<byte>)
    requires shortAddr < 0x10000 && |peer| == 6
    ensures var raw := [L1_SOF, L1_SOF, shortAddr / 256, shortAddr % 256, rssi, lqi] + peer + l2;
            if |l2| < 2 then ParseL1(raw) == ShortFrame
            else ParseL1(raw) == ParsedL1.Ok(Envelope(shortAddr, rssi, lqi, peer, l2[0] < 0xF0, l2))
  {
    var raw := [L1_SOF, L1_SOF, shortAddr / 256, shortAddr % 256, rssi, lqi] + peer + l2;
    assert raw[6..12] == peer && raw[12..] == l2;
    if |l2| >= 2 { assert raw[12] == l2[0]; }
  }

  /** The received frame decrypted directly. */
  function DecryptRx(ci: Cipher, raw: seq<byte>): Opened {
    if |raw| < 18 || raw[0] != L1_SOF || raw[1] != L1_SOF then LengthInvalid
    else DecryptCiphertext(ci, FrameKey(raw[12..18], raw[6..12]), raw[18..])
  }

  /** The already parsed envelope decrypted in place. */
  function DecryptEnvelope(ci: Cipher, env: Envelope): Opened
    requires |env.peer| == 6
  {
    if |env.l2| < 22 then LengthInvalid
    else DecryptCiphertext(ci, FrameKey(env.l2[..6], env.peer), env.l2[6..])
  }

  /** The two ways of decrypting a received frame agree, in success and in plaintext, on every
      FC FC frame the L1 parser accepts. */
  lemma DecryptionsAgree(ci: Cipher, raw: seq<byte>)
    requires |raw| >= 14 && raw[0] == L1_SOF && raw[1] == L1_SOF
    ensures ParseL1(raw).Ok? && DecryptEnvelope(ci, ParseL1(raw).env) == DecryptRx(ci, raw)
  {
    var l2 := raw[12..];
    if |raw| >= 18 {
      assert l2[..6] == raw[12..18];
      assert l2[6..] == raw[18..];
    }
  }

  /** A reply encrypted under the peer's packed id and the nonce it carries opens to its body. */
  lemma ReplyRoundTrip(ci: Cipher, id: seq<byte>, body: seq<byte>, nonce: seq<byte>, header: seq<byte>)
    requires Invertible(ci) && |id| == 12 && |nonce| == 6 && |header| == 6 && |body| <= 255
    requires header[0] == L1_SOF && header[1] == L1_SOF
    ensures var raw := header + IdToBcd(id).value + nonce + Ciphertext(ci, id, body, nonce);
            ParseL1(raw).Ok? && DecryptEnvelope(ci, ParseL1(raw).env) == Body(body)
  {
    var raw := header + IdToBcd(id).value + nonce + Ciphertext(ci, id, body, nonce);
    EnvelopeRoundTrip(ci, id, body, nonce);
    assert raw[6..12] == IdToBcd(id).value && raw[12..18] == nonce && raw[18..] == Ciphertext(ci, id, body, nonce);
    DecryptionsAgree(ci, raw);
  }
}
