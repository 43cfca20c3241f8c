/** The AEAD record context: nonces and additional data, on the sealing and on the opening side. */
module AeadContexts {
  import opened Wrappers
  import opened Bits

  /** An `EVP_AEAD` under a key, given the nonce and the additional data. */
  datatype Evp = Evp(
    seal: (seq<byte>, seq<byte>, seq<byte>) -> seq<byte>,
    open: (seq<byte>, seq<byte>, seq<byte>) -> Option<seq<byte>>,
    nonceLen: nat,
    maxOverhead: nat)

  /** Opening undoes sealing, and nothing is longer than the overhead says. */
  ghost predicate Inverse(evp: Evp) {
    forall nonce, ad, plain ::
      && evp.open(nonce, ad, evp.seal(nonce, ad, plain)) == Some(plain)
      && |evp.seal(nonce, ad, plain)| <= |plain| + evp.maxOverhead
  }

  /** The overhead does not depend on the plaintext, as in every AEAD whose additional data has the length. */
  ghost predicate FixedOverhead(evp: Evp) {
    forall nonce, ad, plain :: |evp.seal(nonce, ad, plain)| == |plain| + evp.maxOverhead
  }

  /** The kinds of cipher: with a MAC key of its own, AES-GCM, and ChaCha20-Poly1305. */
  datatype Kind = Stateful | Gcm | ChaCha

  datatype Context = Null | Context(
    fixedNonce: seq<byte>,
    variableLen: nat,
    variableIncluded: bool,    // variable_nonce_included_in_record_
    variableRandom: bool,      // random_variable_nonce_
    omitLength: bool,
    omitVersion: bool,
    omitAd: bool,
    xor: bool)                 // xor_fixed_nonce_

  /** The length of the fixed IV that `Create` insists on. */
  function FixedIvLen(kind: Kind, tls13: bool): nat {
    if tls13 then 12 else if kind.Gcm? then 4 else 12
  }

  /**
   * `SSLAEADContext::Create`, past the key. None is its refusal of an IV of the wrong length; for a
   * stateful cipher the IV is part of the key.
   */
  function Create(kind: Kind, tls13: bool, ssl3: bool, fixedIv: seq<byte>, nonceLen: nat): Option<Context> {
    if kind.Stateful? then
      if tls13 then None else Some(Context([], nonceLen, true, true, true, ssl3, false, false))
    else if |fixedIv| != FixedIvLen(kind, tls13) || nonceLen != 12 then None
    else if tls13 then Some(Context(fixedIv, 8, false, false, false, false, true, true))
    else if kind.ChaCha? then Some(Context(fixedIv, 8, false, false, false, false, false, true))
    else Some(Context(fixedIv, nonceLen - |fixedIv|, true, false, false, false, false, false))
  }

  /** What every context that `Create` builds has in common. */
  predicate Created(c: Context, nonceLen: nat) {
    c.Context? ==>
      && (if c.xor then |c.fixedNonce| == nonceLen && c.variableLen <= nonceLen else |c.fixedNonce| + c.variableLen == nonceLen)
      && (!c.variableRandom ==> c.variableLen == 8)
      && (c.variableRandom ==> c.variableIncluded && c.omitLength)
      && !(c.xor && c.variableIncluded)
  }

  lemma CreateBuilds(kind: Kind, tls13: bool, ssl3: bool, fixedIv: seq<byte>, nonceLen: nat)
    ensures match Create(kind, tls13, ssl3, fixedIv, nonceLen) case None => true case Some(c) => Created(c, nonceLen)
  {}

  function Zeros(n: nat): seq<byte> {
    seq(n, i => 0)
  }

  function XorAll(a: seq<byte>, b: seq<byte>): (r: seq<byte>)
    requires |a| == |b|
    ensures |r| == |a| && forall i :: 0 <= i < |a| ==> r[i] == XorBytes(a[i], b[i])
  {
    seq(|a|, i requires 0 <= i < |a| => XorBytes(a[i], b[i]))
  }

  /** The nonce that a variable part makes. */
  function Nonce(c: Context, variable: seq<byte>): seq<byte>
    requires c.Context? && |variable| == c.variableLen && (c.xor ==> c.variableLen <= |c.fixedNonce|)
  {
    if c.xor then XorAll(Zeros(|c.fixedNonce| - c.variableLen) + variable, c.fixedNonce)
    else c.fixedNonce + variable
  }

  /** Different variable parts make different nonces. */
  lemma NoncesDistinct(c: Context, nonceLen: nat, u: seq<byte>, v: seq<byte>)
    requires c.Context? && Created(c, nonceLen) && |u| == |v| == c.variableLen && u != v
    ensures Nonce(c, u) != Nonce(c, v)
  {
    var k :| 0 <= k < |u| && u[k] != v[k];
    if c.xor {
      var z := |c.fixedNonce| - c.variableLen;
      assert (Zeros(z) + u)[z + k] == u[k] && (Zeros(z) + v)[z + k] == v[k];
      ByteXorCancels(u[k], v[k], c.fixedNonce[z + k]);
      assert Nonce(c, u)[z + k] != Nonce(c, v)[z + k];
    } else {
      assert Nonce(c, u)[|c.fixedNonce| + k] != Nonce(c, v)[|c.fixedNonce| + k];
    }
  }

  /** Assembling a nonce in place: the fixed part or zeros, the variable part, and the exclusive or. */
  method AssembleNonce(c: Context, nonceLen: nat, variable: seq<byte>) returns (nonce: seq<byte>)
    requires c.Context? && Created(c, nonceLen) && |variable| == c.variableLen
    ensures nonce == Nonce(c, variable) && |nonce| == nonceLen
    ensures !c.xor ==> nonce[|c.fixedNonce|..] == variable
  {
    var buffer := new byte[nonceLen];
    var start := if c.xor then |c.fixedNonce| - c.variableLen else |c.fixedNonce|;
    for i := 0 to start
      invariant forall k :: 0 <= k < i ==> buffer[k] == if c.xor then 0 else c.fixedNonce[k]
    {
      buffer[i] := if c.xor then 0 else c.fixedNonce[i];
    }
    for i := 0 to c.variableLen
      invariant forall k :: 0 <= k < start ==> buffer[k] == if c.xor then 0 else c.fixedNonce[k]
      invariant forall k :: 0 <= k < i ==> buffer[start + k] == variable[k]
    {
      buffer[start + i] := variable[i];
    }
    if c.xor {
      ghost var padded := Zeros(start) + variable;
      assert buffer[..] == padded;
      for i := 0 to |c.fixedNonce|
        invariant forall k :: 0 <= k < nonceLen ==> buffer[k] == if k < i then XorBytes(padded[k], c.fixedNonce[k]) else padded[k]
      {
        buffer[i] := XorBytes(buffer[i], c.fixedNonce[i]);
      }
    }
    assert buffer[..] == Nonce(c, variable);
    nonce := buffer[..];
  }

  function Bytes16(n: nat): seq<byte> {
    [n / 0x100 % 0x100, n % 0x100]
  }

  /** `GetAdditionalData` */
  function AdditionalData(c: Context, typ: byte, version: nat, seqnum: seq<byte>, plainLen: nat): seq<byte>
    requires c.Context?
  {
    if c.omitAd then []
    else
      seqnum + [typ] + (if c.omitVersion then [] else Bytes16(version)) + (if c.omitLength then [] else Bytes16(plainLen))
  }

  /**
   * The additional data byte by byte (section 6.2.3.3 of RFC 5246): the sequence number, the type, and
   * then the version and the length with the high byte first, either of which some ciphers leave out.
   */
  predicate AdditionalBytes(c: Context, typ: byte, version: nat, seqnum: seq<byte>, plainLen: nat, ad: seq<byte>)
    requires c.Context? && |seqnum| == 8
  {
    if c.omitAd then ad == []
    else
      && |ad| == 9 + (if c.omitVersion then 0 else 2) + (if c.omitLength then 0 else 2)
      && (forall i :: 0 <= i < 8 ==> ad[i] == seqnum[i])
      && ad[8] == typ
      && (!c.omitVersion ==> ad[9] == version / 256 % 256 && ad[10] == version % 256)
      && (!c.omitLength ==> ad[|ad| - 2] == plainLen / 256 % 256 && ad[|ad| - 1] == plainLen % 256)
  }

  lemma AdditionalLayout(c: Context, typ: byte, version: nat, seqnum: seq<byte>, plainLen: nat)
    requires c.Context? && |seqnum| == 8
    ensures AdditionalBytes(c, typ, version, seqnum, plainLen, AdditionalData(c, typ, version, seqnum, plainLen))
  {}

  function ExplicitNonceLen(c: Context): nat {
    if c.Context? && c.variableIncluded then c.variableLen else 0
  }

  function MaxOverhead(c: Context, evp: Evp): nat {
    ExplicitNonceLen(c) + if c.Null? then 0 else evp.maxOverhead
  }

  /** `Seal` into a buffer that is large enough; `random` is what `RAND_bytes` gives. */
  method Seal(c: Context, evp: Evp, typ: byte, version: nat, seqnum: seq<byte>, plain: seq<byte>, random: seq<byte>)
    returns (record: seq<byte>, ghost ad: seq<byte>)
    requires Created(c, evp.nonceLen) && |seqnum| == 8 && (c.Context? ==> |random| == c.variableLen)
    ensures record == SealedBytes(c, evp, typ, version, seqnum, plain, random)
    ensures c.Null? ==> record == plain
    ensures c.Context? ==>
              var variable := if c.variableRandom then random else seqnum;
              && AdditionalBytes(c, typ, version, seqnum, |plain|, ad)
              && record == (if c.variableIncluded then variable else []) + evp.seal(Nonce(c, variable), ad, plain)
  {
    hide AdditionalData, AdditionalBytes, Nonce, XorAll;
    ad := [];
    if c.Null? {
      return plain, ad;
    }
    var variable := if c.variableRandom then random else seqnum;
    var nonce := AssembleNonce(c, evp.nonceLen, variable);
    var additional := AdditionalData(c, typ, version, seqnum, |plain|);
    AdditionalLayout(c, typ, version, seqnum, |plain|);
    ad := additional;
    record := evp.seal(nonce, additional, plain);
    if c.variableIncluded {
      // The prefix is the nonce past its fixed part.
      record := nonce[|c.fixedNonce|..] + record;
    }
  }

  function SealedBytes(c: Context, evp: Evp, typ: byte, version: nat, seqnum: seq<byte>, plain: seq<byte>, random: seq<byte>): seq<byte>
    requires Created(c, evp.nonceLen) && |seqnum| == 8 && (c.Context? ==> |random| == c.variableLen)
  {
    if c.Null? then plain
    else
      var variable := if c.variableRandom then random else seqnum;
      (if c.variableIncluded then variable else [])
      + evp.seal(Nonce(c, variable), AdditionalData(c, typ, version, seqnum, |plain|), plain)
  }

  /** `Open`. Whatever a context sealed for a sequence number opens under it to the plaintext. */
  method Open(c: Context, evp: Evp, typ: byte, version: nat, seqnum: seq<byte>, input: seq<byte>)
    returns (plain: Option<seq<byte>>, ghost ad: seq<byte>)
    requires Created(c, evp.nonceLen) && |seqnum| == 8
    ensures plain == Opened(c, evp, typ, version, seqnum, input)
    ensures c.Null? ==> plain == Some(input)
    ensures c.Context? && plain.Some? ==>
              var prefix := if c.variableIncluded then c.variableLen else 0;
              && prefix <= |input| && (c.omitLength || prefix + evp.maxOverhead <= |input|)
              && AdditionalBytes(c, typ, version, seqnum, if c.omitLength then 0 else |input| - prefix - evp.maxOverhead, ad)
              && plain == evp.open(Nonce(c, if c.variableIncluded then input[..prefix] else seqnum), ad, input[prefix..])
  {
    hide AdditionalData, AdditionalBytes, Nonce, XorAll;
    ad := [];
    if c.Null? {
      return Some(input), ad;
    }
    var plainLen := 0;
    if !c.omitLength {
      var overhead := MaxOverhead(c, evp);
      if |input| < overhead {
        return None, ad;
      }
      plainLen := |input| - overhead;
    }
    var additional := AdditionalData(c, typ, version, seqnum, plainLen);
    AdditionalLayout(c, typ, version, seqnum, plainLen);
    ad := additional;
    var variable, rest := seqnum, input;
    if c.variableIncluded {
      if |input| < c.variableLen {
        return None, ad;
      }
      variable, rest := input[..c.variableLen], input[c.variableLen..];
    }
    var nonce := AssembleNonce(c, evp.nonceLen, variable);
    return evp.open(nonce, additional, rest), ad;
  }

  function Opened(c: Context, evp: Evp, typ: byte, version: nat, seqnum: seq<byte>, input: seq<byte>): Option<seq<byte>>
    requires Created(c, evp.nonceLen) && |seqnum| == 8
  {
    if c.Null? then Some(input)
    else if !c.omitLength && |input| < MaxOverhead(c, evp) then None
    else if c.variableIncluded && |input| < c.variableLen then None
    else
      var (variable, rest) := if c.variableIncluded then (input[..c.variableLen], input[c.variableLen..]) else (seqnum, input);
      var plainLen := if c.omitLength then 0 else |input| - MaxOverhead(c, evp);
      evp.open(Nonce(c, variable), AdditionalData(c, typ, version, seqnum, plainLen), rest)
  }

  /** Opening undoes sealing in every configuration, whatever the random part of the nonce was. */
  lemma OpenUndoesSeal(c: Context, evp: Evp, typ: byte, version: nat, seqnum: seq<byte>, plain: seq<byte>, random: seq<byte>)
    requires Created(c, evp.nonceLen) && |seqnum| == 8 && (c.Context? ==> |random| == c.variableLen)
    requires Inverse(evp) && (c.Context? && !c.omitLength ==> FixedOverhead(evp))
    ensures Opened(c, evp, typ, version, seqnum, SealedBytes(c, evp, typ, version, seqnum, plain, random)) == Some(plain)
  {
    if c.Context? {
      var variable := if c.variableRandom then random else seqnum;
      var ad := AdditionalData(c, typ, version, seqnum, |plain|);
      var cipher := evp.seal(Nonce(c, variable), ad, plain);
      var record := SealedBytes(c, evp, typ, version, seqnum, plain, random);
      assert c.variableIncluded ==> record[..c.variableLen] == variable && record[c.variableLen..] == cipher;
      assert !c.variableIncluded ==> record == cipher;
      assert c.omitLength ==> AdditionalData(c, typ, version, seqnum, 0) == ad;
    }
  }

  /** Without a random part, no two sequence numbers share a nonce. */
  lemma SequenceNumbersGiveNonces(c: Context, nonceLen: nat, u: seq<byte>, v: seq<byte>)
    requires c.Context? && Created(c, nonceLen) && !c.variableRandom && |u| == |v| == 8
    ensures Nonce(c, u) == Nonce(c, v) <==> u == v
  {
    if u != v {
      NoncesDistinct(c, nonceLen, u, v);
    }
  }
}
