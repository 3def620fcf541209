/** Bytes and the L2 application frame
    `FB FB <type> <cmd> <body...> <chk hi> <chk lo> FE FE`. */
module Bytes {
  type byte = b: int | 0 <= b < 256

  /** A Go conversion to an unsigned byte: the low eight bits. */
  function ToByte(n: int): (b: byte)
    ensures 0 <= n < 256 ==> b == n
  {
    n % 256
  }

  function Sum(s: seq<byte>): nat {
    if s == [] then 0 else Sum(s[..|s| - 1]) + s[|s| - 1]
  }

  lemma {:induction false} SumBound(s: seq<byte>)
    ensures Sum(s) <= 255 * |s|
  {
    if s != [] { SumBound(s[..|s| - 1]); }
  }
}

module L2 {
  import opened Bytes

  const SOF: byte := 0xFB
  const EOF: byte := 0xFE

  datatype Frame = Frame(kind: byte, cmd: byte, body: seq<byte>, chkHi: byte, chkLo: byte)
  datatype Parsed = Ok(frame: Frame) | ShortFrame | BadSOF | BadEOF

  /** What goes over the wire: a one-byte inner length and a 16-bit checksum, both wrapping. */
  function Wire(cmd: byte, body: seq<byte>): seq<byte> {
    var inner := (1 + |body|) % 256;
    var sum := (inner + cmd + Sum(body)) % 0x10000;
    [SOF, SOF, inner, cmd] + body + [sum / 256, sum % 256, EOF, EOF]
  }

  method BuildL2Frame(cmd: byte, body: seq<byte>) returns (out: seq<byte>)
    ensures out == Wire(cmd, body)
  {
    var inner := ToByte(1 + |body|);
    out := [SOF, SOF, inner, cmd];
    out := out + body;
    var sum := inner + cmd;
    for i := 0 to |body|
      invariant sum == (inner + cmd + Sum(body[..i])) % 0x10000
    {
      assert body[..i + 1][..i] == body[..i];
      assert Sum(body[..i + 1]) == Sum(body[..i]) + body[i];
      sum := (sum + body[i]) % 0x10000;
    }
    assert body[..|body|] == body;
    out := out + [sum / 256, sum % 256, EOF, EOF];
  }

  function ParseL2(raw: seq<byte>): Parsed {
    if |raw| < 8 then ShortFrame
    else if raw[0] != SOF || raw[1] != SOF then BadSOF
    else if raw[|raw| - 2] != EOF || raw[|raw| - 1] != EOF then BadEOF
    else
      var end := |raw| - 2;
      Ok(Frame(raw[2], raw[3], raw[4..end - 2], raw[end - 2], raw[end - 1]))
  }

  /** Parsing undoes building. The header length and the checksum are exact (no wrap) for
      every body the length byte can describe; the length byte is wrong beyond that. */
  lemma BuildThenParse(cmd: byte, body: seq<byte>)
    ensures ParseL2(Wire(cmd, body)).Ok?
    ensures var f := ParseL2(Wire(cmd, body)).frame;
            && f.cmd == cmd && f.body == body
            && (f.kind == 1 + |body| <==> |body| <= 254)
            && (|body| <= 254 ==> 256 * f.chkHi + f.chkLo == f.kind + f.cmd + Sum(f.body))
  {
    SumBound(body);
    var w := Wire(cmd, body);
    assert w[4..|w| - 4] == body;
  }

  /** Building undoes parsing exactly on frames whose length byte and checksum are right. */
  lemma ParseThenBuild(raw: seq<byte>)
    requires ParseL2(raw).Ok?
    ensures var f := ParseL2(raw).frame;
            Wire(f.cmd, f.body) == raw
            <==> f.kind == (1 + |f.body|) % 256
                 && 256 * f.chkHi + f.chkLo == (f.kind + f.cmd + Sum(f.body)) % 0x10000
  {
    var f := ParseL2(raw).frame;
    var n := |raw|;
    var w := Wire(f.cmd, f.body);
    assert raw == [SOF, SOF, f.kind, f.cmd] + f.body + [f.chkHi, f.chkLo, EOF, EOF];
    assert |w| == n && w[2] == (1 + |f.body|) % 256;
    var sum := ((1 + |f.body|) % 256 + f.cmd + Sum(f.body)) % 0x10000;
    assert w[n - 4] == sum / 256 && w[n - 3] == sum % 256;
    assert raw[n - 4] == f.chkHi && raw[n - 3] == f.chkLo && raw[2] == f.kind;
  }
}
