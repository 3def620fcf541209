/** The ar container of the package tools: the writer that emits it and the parser that reads
    it back. */
module Ar {
  import opened Wrappers
  import opened Bytes

  const MAGIC: seq<byte> := [0x21, 0x3C, 0x61, 0x72, 0x63, 0x68, 0x3E, 0x0A]   // !<arch>\n
  const SPACE: byte := 0x20
  const NEWLINE: byte := 0x0A
  const SLASH: byte := 0x2F
  const ZERO: byte := 0x30

  // ------------------------------------------------------------ numbers as text

  predicate IsDigit(b: byte) { ZERO <= b <= 0x39 }

  function Digits(n: nat, radix: nat): seq<byte>
    requires 2 <= radix <= 10
  {
    if n < radix then [ZERO + n] else Digits(n / radix, radix) + [ZERO + n % radix]
  }

  function Decimal(n: nat): seq<byte> { Digits(n, 10) }

  function Octal(mode: int): seq<byte> { if mode < 0 then [0x2D] + Digits(-mode, 8) else Digits(mode, 8) }

  function Value(s: seq<byte>): nat
    requires forall b :: b in s ==> IsDigit(b)
  {
    if s == [] then 0
    else
      assert IsDigit(s[|s| - 1]);
      10 * Value(s[..|s| - 1]) + (s[|s| - 1] as int - 0x30)
  }

  function Pow10(k: nat): nat { if k == 0 then 1 else 10 * Pow10(k - 1) }

  lemma {:induction false} DecimalValue(n: nat)
    ensures |Decimal(n)| > 0 && (forall b :: b in Decimal(n) ==> IsDigit(b)) && Value(Decimal(n)) == n
  {
    if n >= 10 {
      DecimalValue(n / 10);
      assert Decimal(n)[..|Decimal(n)| - 1] == Decimal(n / 10);
    } else {
      assert Decimal(n)[..0] == [];
    }
  }

  /** A number has at most k digits exactly when it is below ten to the k. */
  lemma {:induction false} DecimalLengthIff(n: nat, k: nat)
    requires k > 0
    ensures |Decimal(n)| <= k <==> n < Pow10(k)
  {
    if n < 10 {
      PowAtLeastTen(k);
    } else if k == 1 {
      assert Pow10(1) == 10 * Pow10(0);
      assert |Decimal(n / 10)| > 0 by { DecimalValue(n / 10); }
    } else {
      DecimalLengthIff(n / 10, k - 1);
    }
  }

  lemma {:induction false} PowAtLeastTen(k: nat)
    requires k > 0
    ensures Pow10(k) >= 10
  {
    if k > 1 { PowAtLeastTen(k - 1); }
  }

  lemma {:induction false} ValueBound(s: seq<byte>)
    requires forall b :: b in s ==> IsDigit(b)
    ensures Value(s) < Pow10(|s|)
  {
    if s != [] {
      assert s[|s| - 1] in s;
      ValueBound(s[..|s| - 1]);
    }
  }

  // ------------------------------------------------------------ fields

  function Spaces(k: nat): (r: seq<byte>)
    ensures |r| == k
  {
    seq(k, _ => SPACE)
  }

  /** Left-justified, space-padded, cut off at the width. */
  function Field(s: seq<byte>, width: nat): (r: seq<byte>)
    ensures |r| == width
  {
    if |s| > width then s[..width] else s + Spaces(width - |s|)
  }

  method AppendField(dst: seq<byte>, s: seq<byte>, width: nat) returns (out: seq<byte>)
    ensures out == dst + Field(s, width)
  {
    var t := if |s| > width then s[..width] else s;
    out := dst + t;
    for i := |t| to width
      invariant out == dst + t + Spaces(i - |t|)
    {
      assert Spaces(i - |t|) + [SPACE] == Spaces(i + 1 - |t|);
      out := out + [SPACE];
    }
  }

  function TrimRight(s: seq<byte>, drop: byte -> bool): (r: seq<byte>)
    ensures |r| <= |s|
  {
    if s != [] && drop(s[|s| - 1]) then TrimRight(s[..|s| - 1], drop) else s
  }

  function TrimLeft(s: seq<byte>, drop: byte -> bool): seq<byte> {
    if s != [] && drop(s[0]) then TrimLeft(s[1..], drop) else s
  }

  predicate IsBlank(b: byte) { b == SPACE }

  predicate IsSpace(b: byte) { b == SPACE || 9 <= b <= 13 }

  function TrimSpace(s: seq<byte>): seq<byte> { TrimRight(TrimLeft(s, IsSpace), IsSpace) }

  function TrimSlash(s: seq<byte>): seq<byte> {
    if s != [] && s[|s| - 1] == SLASH then s[..|s| - 1] else s
  }

  lemma {:induction false} TrimPadding(s: seq<byte>, k: nat, drop: byte -> bool)
    requires drop(SPACE)
    ensures TrimRight(s + Spaces(k), drop) == TrimRight(s, drop)
  {
    if k == 0 {
      assert s + Spaces(0) == s;
    } else {
      assert (s + Spaces(k))[..|s| + k - 1] == s + Spaces(k - 1);
      TrimPadding(s, k - 1, drop);
    }
  }

  // ------------------------------------------------------------ the writer

  datatype Member = Member(name: seq<byte>, mode: int, body: seq<byte>)

  function Header(m: Member): (r: seq<byte>)
    ensures |r| == 60
  {
    Field(m.name, 16) + Field([ZERO], 12) + Field([ZERO], 6) + Field([ZERO], 6) + Field(Octal(m.mode), 8)
    + Field(Decimal(|m.body|), 10) + [0x60, NEWLINE]
  }

  function Padding(m: Member): seq<byte> { if |m.body| % 2 == 1 then [NEWLINE] else [] }

  function Emitted(m: Member): seq<byte> { Header(m) + m.body + Padding(m) }

  function Body(ms: seq<Member>): seq<byte> {
    if ms == [] then [] else Emitted(ms[0]) + Body(ms[1..])
  }

  /** What a writer that was given these members has produced. */
  function Archive(ms: seq<Member>): seq<byte> { MAGIC + Body(ms) }

  lemma {:induction false} BodyGrows(ms: seq<Member>, m: Member)
    ensures Body(ms + [m]) == Body(ms) + Emitted(m)
  {
    if ms == [] {
      assert ([m])[1..] == [];
    } else {
      assert (ms + [m])[1..] == ms[1..] + [m];
      BodyGrows(ms[1..], m);
    }
  }

  method BuildHeader(name: seq<byte>, mode: int, body: seq<byte>) returns (hdr: seq<byte>)
    ensures hdr == Header(Member(name, mode, body))
  {
    hide Field, Octal, Decimal;
    hdr := AppendField([], name, 16);
    hdr := AppendField(hdr, [ZERO], 12);
    hdr := AppendField(hdr, [ZERO], 6);
    hdr := AppendField(hdr, [ZERO], 6);
    hdr := AppendField(hdr, Octal(mode), 8);
    hdr := AppendField(hdr, Decimal(|body|), 10);
    hdr := hdr + [0x60, NEWLINE];
  }

  class Writer {
    var out: seq<byte>
    var started: bool
    ghost var members: seq<Member>

    /** Nothing is written before the first add; afterwards the output is an archive. */
    ghost predicate Valid()
      reads this
    {
      if started then out == Archive(members) else out == [] && members == []
    }

    constructor ()
      ensures Valid() && !started
    {
      out, started, members := [], false, [];
    }

    /** A name of more than 16 bytes is refused (the magic may already have gone out). */
    method Add(name: seq<byte>, mode: int, body: seq<byte>) returns (ok: bool)
      requires Valid()
      modifies this
      ensures Valid() && started && ok == (|name| <= 16)
      ensures members == old(members) + if ok then [Member(name, mode, body)] else []
    {
      hide Header, Body;
      if !started {
        EmptyBody();
        out := out + MAGIC;
        started := true;
      }
      if |name| > 16 { return false; }
      var hdr := BuildHeader(name, mode, body);
      ghost var m := Member(name, mode, body);
      ghost var before := out;
      out := out + hdr;
      out := out + body;
      if |body| % 2 == 1 { out := out + [NEWLINE]; }
      assert out == before + Emitted(m);
      BodyGrows(members, m);
      members := members + [m];
      ok := true;
    }
  }

  lemma EmptyBody()
    ensures Body([]) == []
  {
  }

  // ------------------------------------------------------------ the parser

  function DigitCount(s: seq<byte>): (k: nat)
    ensures k <= |s| && forall b :: b in s[..k] ==> IsDigit(b)
  {
    if s == [] || !IsDigit(s[0]) then 0
    else
      var k := DigitCount(s[1..]);
      assert s[..k + 1] == [s[0]] + s[1..][..k];
      k + 1
  }

  /** A scanned decimal: optional sign, then as many digits as there are, at least one. */
  function ParseSize(field: seq<byte>): Option<int> {
    var t := TrimSpace(field);
    var signed := t != [] && (t[0] == 0x2B || t[0] == 0x2D);
    var rest := if signed then t[1..] else t;
    var k := DigitCount(rest);
    if k == 0 then None
    else
      var v: int := Value(rest[..k]);
      Some(if signed && t[0] == 0x2D then -v else v)
  }

  datatype Parsed =
    | Members(members: map<seq<byte>, seq<byte>>)
    | NotAnArchive | BadSize | Overrun
    | SliceFault   // a negative size: the slice expression panics

  function NameOf(field: seq<byte>): seq<byte> { TrimSlash(TrimRight(field, IsBlank)) }

  function ParseFrom(raw: seq<byte>, off: nat, found: map<seq<byte>, seq<byte>>): Parsed
    decreases |raw| - off
  {
    if off + 60 > |raw| then Members(found)
    else
      var size, start := ParseSize(raw[off + 48..off + 58]), off + 60;
      if size.None? then BadSize
      else if start + size.value > |raw| then Overrun
      else if size.value < 0 then SliceFault
      else
        var next := start + size.value + size.value % 2;
        ParseFrom(raw, next, found[NameOf(raw[off..off + 16]) := raw[start..start + size.value]])
  }

  function Parse(raw: seq<byte>): Parsed {
    if |raw| < |MAGIC| || raw[..|MAGIC|] != MAGIC then NotAnArchive else ParseFrom(raw, |MAGIC|, map[])
  }

  lemma HeaderWindow(raw: seq<byte>, off: nat)
    requires off + 60 <= |raw|
    ensures raw[off..off + 60][0..16] == raw[off..off + 16]
    ensures raw[off..off + 60][48..58] == raw[off + 48..off + 58]
  {
    var hdr := raw[off..off + 60];
    assert forall i :: 0 <= i < 60 ==> hdr[i] == raw[off + i];
    assert forall i :: 0 <= i < 10 ==>
        hdr[48..58][i] == hdr[48 + i] == raw[off + (48 + i)] == raw[off + 48..off + 58][i];
  }

  method ArMembers(raw: seq<byte>) returns (r: Parsed)
    ensures r == Parse(raw)
  {
    hide ParseSize, NameOf;
    if |raw| < |MAGIC| || raw[..|MAGIC|] != MAGIC { return NotAnArchive; }
    var out: map<seq<byte>, seq<byte>> := map[];
    var off := |MAGIC|;
    while off + 60 <= |raw|
      invariant ParseFrom(raw, |MAGIC|, map[]) == ParseFrom(raw, off, out)
      decreases |raw| - off
    {
      var hdr := raw[off..off + 60];
      HeaderWindow(raw, off);
      var name := NameOf(hdr[0..16]);
      var size := ParseSize(hdr[48..58]);
      if size.None? { return BadSize; }
      var start := off + 60;
      if start + size.value > |raw| { return Overrun; }
      if size.value < 0 { return SliceFault; }
      out := out[name := raw[start..start + size.value]];
      off := start + size.value;
      if size.value % 2 == 1 { off := off + 1; }
    }
    r := Members(out);
  }

  // ------------------------------------------------------------ parser after writer

  predicate PlainName(name: seq<byte>) {
    name == [] || (name[|name| - 1] != SPACE && name[|name| - 1] != SLASH)
  }

  /** A name that fits its field comes back exactly when it does not end in a space or slash. */
  lemma NameRoundTripsIff(name: seq<byte>)
    requires |name| <= 16
    ensures NameOf(Field(name, 16)) == name <==> PlainName(name)
  {
    TrimPadding(name, 16 - |name|, IsBlank);
    if !PlainName(name) {
      assert |NameOf(Field(name, 16))| < |name|;
    }
  }

  lemma {:induction false} AllDigits(s: seq<byte>)
    requires forall b :: b in s ==> IsDigit(b)
    ensures DigitCount(s) == |s|
  {
    if s != [] {
      assert s[0] in s;
      AllDigits(s[1..]);
    }
  }

  lemma DigitsParse(s: seq<byte>, k: nat)
    requires s != [] && forall b :: b in s ==> IsDigit(b)
    ensures ParseSize(s + Spaces(k)) == Some(Value(s))
  {
    assert s[0] in s && s[|s| - 1] in s;
    var t := s + Spaces(k);
    assert TrimLeft(t, IsSpace) == t;
    TrimPadding(s, k, IsSpace);
    AllDigits(s);
    assert s[..|s|] == s;
  }

  /** A size field comes back exactly for sizes below ten to the tenth; a longer one is cut. */
  lemma SizeRoundTripsIff(n: nat)
    ensures ParseSize(Field(Decimal(n), 10)) == Some(n) <==> n < Pow10(10)
  {
    DecimalValue(n);
    DecimalLengthIff(n, 10);
    var d := Decimal(n);
    if |d| <= 10 {
      DigitsParse(d, 10 - |d|);
    } else {
      var cut := d[..10];
      assert cut + Spaces(0) == cut;
      DigitsParse(cut, 0);
      ValueBound(cut);
    }
  }

  predicate Storable(m: Member) {
    |m.name| <= 16 && PlainName(m.name) && |m.body| < Pow10(10)
  }

  /** Later members override earlier ones of the same name. */
  function Contents(ms: seq<Member>, found: map<seq<byte>, seq<byte>>): map<seq<byte>, seq<byte>> {
    if ms == [] then found else Contents(ms[1..], found[ms[0].name := ms[0].body])
  }

  lemma MemberParses(raw: seq<byte>, off: nat, m: Member, rest: seq<byte>, found: map<seq<byte>, seq<byte>>)
    requires Storable(m) && off <= |raw| && raw[off..] == Emitted(m) + rest
    ensures ParseFrom(raw, off, found) == ParseFrom(raw, off + |Emitted(m)|, found[m.name := m.body])
  {
    hide Octal, Decimal, ParseSize, NameOf, Pow10, Field, Header;
    HeaderSlices(m);
    EmittedSlices(raw, off, m, rest);
    NameRoundTripsIff(m.name);
    SizeRoundTripsIff(|m.body|);
  }

  lemma EmittedSlices(raw: seq<byte>, off: nat, m: Member, rest: seq<byte>)
    requires off <= |raw| && raw[off..] == Emitted(m) + rest
    ensures off + 60 + |m.body| + |m.body| % 2 == off + |Emitted(m)| <= |raw|
    ensures raw[off..off + 16] == Header(m)[..16] && raw[off + 48..off + 58] == Header(m)[48..58]
    ensures raw[off + 60..off + 60 + |m.body|] == m.body
  {
    hide Header;
    var e, h, n := Emitted(m), Header(m), |m.body|;
    SliceOf(raw, off, e + rest, 0, 16);
    SliceOf(raw, off, e + rest, 48, 58);
    SliceOf(raw, off, e + rest, 60, 60 + n);
    assert (e + rest)[0..16] == h[..16] && (e + rest)[48..58] == h[48..58] && (e + rest)[60..60 + n] == m.body;
  }

  lemma SliceOf(raw: seq<byte>, off: nat, tail: seq<byte>, a: nat, b: nat)
    requires off <= |raw| && raw[off..] == tail && a <= b <= |tail|
    ensures off + b <= |raw| && raw[off + a..off + b] == tail[a..b]
  {
    assert |tail| == |raw| - off;
    assert forall i :: 0 <= i < |tail| ==> tail[i] == raw[off + i];
    assert |raw[off + a..off + b]| == |tail[a..b]|;
    assert forall i :: 0 <= i < b - a ==>
        raw[off + a..off + b][i] == raw[off + (a + i)] == tail[a + i] == tail[a..b][i];
  }

  lemma HeaderSlices(m: Member)
    ensures Header(m)[..16] == Field(m.name, 16)
    ensures Header(m)[48..58] == Field(Decimal(|m.body|), 10)
  {
    hide Octal, Decimal, Field;
  }

  /** What the parser makes of the rest of an archive that starts at a header boundary: fewer than
      sixty bytes are ignored; otherwise the size field of the header decides. */
  function Rest(tail: seq<byte>, found: map<seq<byte>, seq<byte>>): Option<Parsed> {
    if |tail| < 60 then Some(Members(found))
    else
      match ParseSize(tail[48..58])
      case None => Some(BadSize)
      case Some(size) => if size > |tail| - 60 then Some(Overrun) else if size < 0 then Some(SliceFault) else None
  }

  lemma RestDecides(raw: seq<byte>, off: nat, found: map<seq<byte>, seq<byte>>)
    requires off <= |raw| && Rest(raw[off..], found).Some?
    ensures ParseFrom(raw, off, found) == Rest(raw[off..], found).value
  {
    hide ParseSize, NameOf;
    var tail := raw[off..];
    if |tail| >= 60 { SliceOf(raw, off, tail, 48, 58); }
  }

  /** Well-formed members are read one after the other, whatever follows them. */
  lemma {:induction false} BodyParses(raw: seq<byte>, off: nat, ms: seq<Member>, tail: seq<byte>,
                                      found: map<seq<byte>, seq<byte>>)
    requires (forall m :: m in ms ==> Storable(m)) && off <= |raw| && raw[off..] == Body(ms) + tail
    ensures off + |Body(ms)| <= |raw| && raw[off + |Body(ms)|..] == tail
    ensures ParseFrom(raw, off, found) == ParseFrom(raw, off + |Body(ms)|, Contents(ms, found))
    decreases |ms|
  {
    hide Emitted, Storable, ParseFrom;
    if ms == [] {
      assert Body(ms) + tail == tail;
    } else {
      var next := off + |Emitted(ms[0])|;
      assert ms[0] in ms;
      assert raw[off..] == Emitted(ms[0]) + (Body(ms[1..]) + tail);
      MemberParses(raw, off, ms[0], Body(ms[1..]) + tail, found);
      assert raw[next..] == raw[off..][|Emitted(ms[0])|..] == Body(ms[1..]) + tail;
      BodyParses(raw, next, ms[1..], tail, found[ms[0].name := ms[0].body]);
    }
  }

  lemma ArchiveSplit(ms: seq<Member>, tail: seq<byte>)
    ensures var raw := Archive(ms) + tail;
            |raw| >= |MAGIC| && raw[..|MAGIC|] == MAGIC && raw[|MAGIC|..] == Body(ms) + tail
  {
    hide Body;
  }

  /** Whatever stands after the last good member decides the outcome: an incomplete header is ignored,
      a size that is no number, too large or negative is its own error. */
  lemma RestOfArchive(ms: seq<Member>, tail: seq<byte>)
    requires (forall m :: m in ms ==> Storable(m)) && Rest(tail, Contents(ms, map[])).Some?
    ensures Parse(Archive(ms) + tail) == Rest(tail, Contents(ms, map[])).value
  {
    ArchiveSplit(ms, tail);
    hide Rest, ParseFrom, Contents, Body, Archive, Storable;
    var raw := Archive(ms) + tail;
    BodyParses(raw, |MAGIC|, ms, tail, map[]);
    RestDecides(raw, |MAGIC| + |Body(ms)|, Contents(ms, map[]));
  }

  /** Anything that does not start with the magic is no archive. */
  lemma NotAnArchiveIff(raw: seq<byte>)
    ensures Parse(raw).NotAnArchive? <==> !(MAGIC <= raw)
  {
    if MAGIC <= raw { NeverNotAnArchive(raw, |MAGIC|, map[]); }
  }

  lemma {:induction false} NeverNotAnArchive(raw: seq<byte>, off: nat, found: map<seq<byte>, seq<byte>>)
    ensures !ParseFrom(raw, off, found).NotAnArchive?
    decreases |raw| - off
  {
    hide ParseSize, NameOf;
    if off + 60 <= |raw| {
      var size, start := ParseSize(raw[off + 48..off + 58]), off + 60;
      if size.Some? && 0 <= size.value && start + size.value <= |raw| {
        NeverNotAnArchive(raw, start + size.value + size.value % 2,
                          found[NameOf(raw[off..off + 16]) := raw[start..start + size.value]]);
      }
    }
  }

  /** Parsing what the writer emitted gives exactly the members, for names of at most 16 bytes
      that do not end in a space or slash and sizes of at most ten digits. */
  lemma ArchiveRoundTrip(ms: seq<Member>)
    requires forall m :: m in ms ==> Storable(m)
    ensures Parse(Archive(ms)) == Members(Contents(ms, map[]))
  {
    assert Archive(ms) + [] == Archive(ms);
    RestOfArchive(ms, []);
  }

  /** The last member of a name, or -1. */
  function LastNamed(ms: seq<Member>, n: seq<byte>): (r: int)
    ensures -1 <= r < |ms|
  {
    if ms == [] then -1
    else
      var r := LastNamed(ms[1..], n);
      if r >= 0 then r + 1 else if ms[0].name == n then 0 else -1
  }

  lemma {:induction false} LastNamedIsLast(ms: seq<Member>, n: seq<byte>)
    ensures var r := LastNamed(ms, n);
            && (r >= 0 ==> ms[r].name == n)
            && forall k :: r < k < |ms| ==> ms[k].name != n
  {
    if ms != [] {
      LastNamedIsLast(ms[1..], n);
      assert forall k :: 0 < k < |ms| ==> ms[k] == ms[1..][k - 1];
    }
  }

  /** The map the parser returns holds, for each name, the body of its last member; nothing else. */
  lemma {:induction false} ContentsAt(ms: seq<Member>, found: map<seq<byte>, seq<byte>>, n: seq<byte>)
    ensures var c, r := Contents(ms, found), LastNamed(ms, n);
            && (n in c <==> n in found || r >= 0)
            && (n in c ==> c[n] == if r >= 0 then ms[r].body else found[n])
  {
    if ms != [] { ContentsAt(ms[1..], found[ms[0].name := ms[0].body], n); }
  }

  /** With distinct names nothing is lost: every member is found under its name. */
  lemma DistinctMembersAllFound(ms: seq<Member>, i: nat)
    requires forall a, b :: 0 <= a < b < |ms| ==> ms[a].name != ms[b].name
    requires i < |ms|
    ensures ms[i].name in Contents(ms, map[]) && Contents(ms, map[])[ms[i].name] == ms[i].body
  {
    ContentsAt(ms, map[], ms[i].name);
    LastNamedIsLast(ms, ms[i].name);
  }
}
