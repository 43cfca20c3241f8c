/** The handshake fragments of DTLS (section 4.2.2 of RFC 6347) as bytes. */
module HandshakeFragments {
  import opened Wrappers
  import opened Bits

  /** `hm_header_st` */
  datatype Header = Header(typ: byte, msgLen: nat, seqNo: nat, fragOff: nat, fragLen: nat)

  ghost predicate FieldsFit(h: Header) {
    h.msgLen < 0x100_0000 && h.seqNo < 0x1_0000 && h.fragOff < 0x100_0000 && h.fragLen < 0x100_0000
  }

  function U16(v: nat): (s: seq<byte>)
    requires v < 0x1_0000
    ensures |s| == 2
  {
    [v / 0x100, v % 0x100]
  }

  function U24(v: nat): (s: seq<byte>)
    requires v < 0x100_0000
    ensures |s| == 3
  {
    [v / 0x1_0000, v / 0x100 % 0x100, v % 0x100]
  }

  function Get16(s: seq<byte>): (v: nat)
    requires |s| == 2
    ensures v < 0x1_0000
  {
    0x100 * (s[0] as nat) + s[1]
  }

  function Get24(s: seq<byte>): (v: nat)
    requires |s| == 3
    ensures v < 0x100_0000
  {
    0x1_0000 * (s[0] as nat) + 0x100 * (s[1] as nat) + s[2]
  }

  lemma GetPut(v: nat)
    ensures v < 0x1_0000 ==> Get16(U16(v)) == v
    ensures v < 0x100_0000 ==> Get24(U24(v)) == v
  {}

  function HeaderBytes(h: Header): (s: seq<byte>)
    requires FieldsFit(h)
    ensures |s| == 12
  {
    [h.typ] + U24(h.msgLen) + U16(h.seqNo) + U24(h.fragOff) + U24(h.fragLen)
  }

  /** `dtls1_parse_fragment`: the header, the fragment's body, and what follows. */
  function ParseFragment(s: seq<byte>): (r: Option<(Header, seq<byte>, seq<byte>)>)
    ensures r.Some? ==> FieldsFit(r.value.0) && |r.value.1| == r.value.0.fragLen && |r.value.2| + 12 + r.value.0.fragLen == |s|
  {
    if |s| < 12 then None
    else
      var h := Header(s[0], Get24(s[1..4]), Get16(s[4..6]), Get24(s[6..9]), Get24(s[9..12]));
      if |s| < 12 + h.fragLen then None
      else Some((h, s[12..12 + h.fragLen], s[12 + h.fragLen..]))
  }

  lemma ParseOfBytes(h: Header, body: seq<byte>, rest: seq<byte>)
    requires FieldsFit(h) && |body| == h.fragLen
    ensures ParseFragment(HeaderBytes(h) + body + rest) == Some((h, body, rest))
  {
    var s := HeaderBytes(h) + body + rest;
    assert s[0] == h.typ;
    assert s[1..4] == U24(h.msgLen) && s[4..6] == U16(h.seqNo) && s[6..9] == U24(h.fragOff) && s[9..12] == U24(h.fragLen);
    GetPut(h.msgLen); GetPut(h.seqNo); GetPut(h.fragOff); GetPut(h.fragLen);
    assert s[12..12 + h.fragLen] == body && s[12 + h.fragLen..] == rest;
  }
}
