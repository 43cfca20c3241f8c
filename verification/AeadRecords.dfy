/**
 * The record formats of TLS: what each kind of cipher puts on the wire, and what a protected record is
 * bound to.
 */
module AeadRecords {
  import opened Wrappers
  import opened Bits
  import opened AeadContexts

  // ---- Formats.

  /** The type, and the version with its high byte first. */
  function TypeAndVersion(typ: byte, version: nat): seq<byte> {
    [typ, version / 256 % 256, version % 256]
  }

  function Length(n: nat): seq<byte> {
    [n / 256 % 256, n % 256]
  }

  /** The sequence number with four zeros before it, and the fixed IV added bit by bit. */
  ghost predicate IsMasked(nonce: seq<byte>, fixedIv: seq<byte>, seqnum: seq<byte>)
    requires |fixedIv| == 12 && |seqnum| == 8
  {
    && |nonce| == 12 && (forall i :: 0 <= i < 4 ==> nonce[i] == fixedIv[i])
    && forall i :: 4 <= i < 12 ==> nonce[i] == XorBytes(seqnum[i - 4], fixedIv[i])
  }

  /** A context is built exactly for an IV and a nonce of the right lengths; stateful ciphers end with TLS 1.2. */
  lemma CreateRefuses(kind: Kind, tls13: bool, ssl3: bool, fixedIv: seq<byte>, nonceLen: nat)
    ensures Create(kind, tls13, ssl3, fixedIv, nonceLen).None? <==>
              if kind.Stateful? then tls13 else nonceLen != 12 || |fixedIv| != (if kind.Gcm? && !tls13 then 4 else 12)
    ensures Create(kind, tls13, ssl3, fixedIv, nonceLen) != Some(Null)
  {}

  /** AES-GCM in TLS 1.2 (RFC 5288): the fixed IV and the explicit sequence number are the nonce; thirteen bytes are authenticated. */
  lemma GcmSeals(c: Context, evp: Evp, ssl3: bool, fixedIv: seq<byte>, typ: byte, version: nat, seqnum: seq<byte>, plain: seq<byte>, random: seq<byte>)
    requires Create(Gcm, false, ssl3, fixedIv, evp.nonceLen) == Some(c) && |seqnum| == 8 && |random| == c.variableLen
    ensures Created(c, evp.nonceLen)
    ensures SealedBytes(c, evp, typ, version, seqnum, plain, random) ==
            seqnum + evp.seal(fixedIv + seqnum, seqnum + TypeAndVersion(typ, version) + Length(|plain|), plain)
  {
    assert AdditionalData(c, typ, version, seqnum, |plain|) == seqnum + TypeAndVersion(typ, version) + Length(|plain|);
  }

  lemma GcmOpens(c: Context, evp: Evp, ssl3: bool, fixedIv: seq<byte>, typ: byte, version: nat, seqnum: seq<byte>, input: seq<byte>)
    requires Create(Gcm, false, ssl3, fixedIv, evp.nonceLen) == Some(c) && |seqnum| == 8
    ensures Created(c, evp.nonceLen)
    ensures Opened(c, evp, typ, version, seqnum, input) ==
            if |input| < 8 + evp.maxOverhead then None
            else evp.open(fixedIv + input[..8], seqnum + TypeAndVersion(typ, version) + Length(|input| - 8 - evp.maxOverhead), input[8..])
  {
    if |input| >= 8 + evp.maxOverhead {
      var n := |input| - 8 - evp.maxOverhead;
      assert AdditionalData(c, typ, version, seqnum, n) == seqnum + TypeAndVersion(typ, version) + Length(n);
    }
  }

  lemma MaskedIs(c: Context, fixedIv: seq<byte>, seqnum: seq<byte>, nonce: seq<byte>)
    requires c.Context? && c.xor && c.variableLen == 8 && c.fixedNonce == fixedIv && |fixedIv| == 12 && |seqnum| == 8
    requires IsMasked(nonce, fixedIv, seqnum)
    ensures Nonce(c, seqnum) == nonce
  {
    var padded := Zeros(4) + seqnum;
    forall i | 0 <= i < 12
      ensures Nonce(c, seqnum)[i] == nonce[i]
    {
      assert padded[i] == if i < 4 then 0 else seqnum[i - 4];
    }
  }

  /** ChaCha20-Poly1305 in TLS 1.2 (RFC 7905): the nonce is masked and not sent; thirteen bytes are authenticated. */
  lemma ChaChaSeals(c: Context, evp: Evp, ssl3: bool, fixedIv: seq<byte>, typ: byte, version: nat, seqnum: seq<byte>, plain: seq<byte>,
                    random: seq<byte>, nonce: seq<byte>)
    requires Create(ChaCha, false, ssl3, fixedIv, evp.nonceLen) == Some(c) && |seqnum| == 8 && |random| == c.variableLen
    requires |fixedIv| == 12 && IsMasked(nonce, fixedIv, seqnum)
    ensures Created(c, evp.nonceLen)
    ensures SealedBytes(c, evp, typ, version, seqnum, plain, random) ==
            evp.seal(nonce, seqnum + TypeAndVersion(typ, version) + Length(|plain|), plain)
  {
    hide XorAll, Nonce, IsMasked;
    MaskedIs(c, fixedIv, seqnum, nonce);
    var ad := seqnum + TypeAndVersion(typ, version) + Length(|plain|);
    assert AdditionalData(c, typ, version, seqnum, |plain|) == ad;
    assert [] + evp.seal(nonce, ad, plain) == evp.seal(nonce, ad, plain);
  }

  lemma ChaChaOpens(c: Context, evp: Evp, ssl3: bool, fixedIv: seq<byte>, typ: byte, version: nat, seqnum: seq<byte>, input: seq<byte>,
                    nonce: seq<byte>)
    requires Create(ChaCha, false, ssl3, fixedIv, evp.nonceLen) == Some(c) && |seqnum| == 8
    requires |fixedIv| == 12 && IsMasked(nonce, fixedIv, seqnum)
    ensures Created(c, evp.nonceLen)
    ensures Opened(c, evp, typ, version, seqnum, input) ==
            if |input| < evp.maxOverhead then None
            else evp.open(nonce, seqnum + TypeAndVersion(typ, version) + Length(|input| - evp.maxOverhead), input)
  {
    hide XorAll, Nonce, IsMasked;
    MaskedIs(c, fixedIv, seqnum, nonce);
    if |input| >= evp.maxOverhead {
      var n := |input| - evp.maxOverhead;
      assert AdditionalData(c, typ, version, seqnum, n) == seqnum + TypeAndVersion(typ, version) + Length(n);
    }
  }

  /** Every cipher of TLS 1.3 (section 5.3 of RFC 8446): the nonce is masked, and nothing else is authenticated. */
  lemma Tls13Seals(kind: Kind, c: Context, evp: Evp, ssl3: bool, fixedIv: seq<byte>, typ: byte, version: nat, seqnum: seq<byte>,
                   plain: seq<byte>, random: seq<byte>, nonce: seq<byte>)
    requires Create(kind, true, ssl3, fixedIv, evp.nonceLen) == Some(c) && |seqnum| == 8 && |random| == c.variableLen
    requires |fixedIv| == 12 && IsMasked(nonce, fixedIv, seqnum)
    ensures Created(c, evp.nonceLen)
    ensures SealedBytes(c, evp, typ, version, seqnum, plain, random) == evp.seal(nonce, [], plain)
    ensures |plain| >= evp.maxOverhead ==> Opened(c, evp, typ, version, seqnum, plain) == evp.open(nonce, [], plain)
    ensures |plain| < evp.maxOverhead ==> Opened(c, evp, typ, version, seqnum, plain) == None
  {
    hide XorAll, Nonce, IsMasked;
    MaskedIs(c, fixedIv, seqnum, nonce);
    assert [] + evp.seal(nonce, [], plain) == evp.seal(nonce, [], plain);
  }

  /** A cipher with a MAC key: the random nonce is sent; the version is authenticated except in SSL 3.0, and the length is left to the cipher. */
  lemma StatefulSeals(c: Context, evp: Evp, ssl3: bool, fixedIv: seq<byte>, typ: byte, version: nat, seqnum: seq<byte>, plain: seq<byte>,
                      random: seq<byte>)
    requires Create(Stateful, false, ssl3, fixedIv, evp.nonceLen) == Some(c) && |seqnum| == 8 && |random| == c.variableLen
    ensures Created(c, evp.nonceLen) && |random| == evp.nonceLen
    ensures SealedBytes(c, evp, typ, version, seqnum, plain, random) ==
            random + evp.seal(random, seqnum + (if ssl3 then [typ] else TypeAndVersion(typ, version)), plain)
  {
    assert AdditionalData(c, typ, version, seqnum, |plain|) == seqnum + (if ssl3 then [typ] else TypeAndVersion(typ, version));
    assert [] + random == random;
  }

  lemma StatefulOpens(c: Context, evp: Evp, ssl3: bool, fixedIv: seq<byte>, typ: byte, version: nat, seqnum: seq<byte>, input: seq<byte>)
    requires Create(Stateful, false, ssl3, fixedIv, evp.nonceLen) == Some(c) && |seqnum| == 8
    ensures Created(c, evp.nonceLen)
    ensures Opened(c, evp, typ, version, seqnum, input) ==
            if |input| < evp.nonceLen then None
            else
              evp.open(input[..evp.nonceLen], seqnum + (if ssl3 then [typ] else TypeAndVersion(typ, version)), input[evp.nonceLen..])
  {
    assert AdditionalData(c, typ, version, seqnum, 0) == seqnum + (if ssl3 then [typ] else TypeAndVersion(typ, version));
    if |input| >= evp.nonceLen {
      assert [] + input[..evp.nonceLen] == input[..evp.nonceLen];
    }
  }

  // ---- What a record is bound to.

  lemma LengthInjective(m: nat, n: nat)
    requires m < 0x1_0000 && n < 0x1_0000
    ensures Length(m) == Length(n) <==> m == n
  {
    if Length(m) == Length(n) {
      assert Length(m)[0] == Length(n)[0] && Length(m)[1] == Length(n)[1];
    }
  }

  /**
   * The additional data of one context determines the sequence number and the type, and the version
   * and the length as far as the context does not leave them out.
   */
  lemma AdditionalDataInjective(c: Context, typ: byte, version: nat, seqnum: seq<byte>, plainLen: nat,
                                typ': byte, version': nat, seqnum': seq<byte>, plainLen': nat)
    requires c.Context? && !c.omitAd && |seqnum| == |seqnum'| == 8
    requires version < 0x1_0000 && version' < 0x1_0000 && plainLen < 0x1_0000 && plainLen' < 0x1_0000
    ensures AdditionalData(c, typ, version, seqnum, plainLen) == AdditionalData(c, typ', version', seqnum', plainLen') <==>
              && seqnum == seqnum' && typ == typ' && (c.omitVersion || version == version') && (c.omitLength || plainLen == plainLen')
  {
    hide AdditionalData, Length;
    var ad, ad' := AdditionalData(c, typ, version, seqnum, plainLen), AdditionalData(c, typ', version', seqnum', plainLen');
    AdditionalParts(c, typ, version, seqnum, plainLen);
    AdditionalParts(c, typ', version', seqnum', plainLen');
    LengthInjective(version, version');
    LengthInjective(plainLen, plainLen');
  }

  /** The additional data, cut where its parts join. */
  lemma AdditionalParts(c: Context, typ: byte, version: nat, seqnum: seq<byte>, plainLen: nat)
    requires c.Context? && !c.omitAd && |seqnum| == 8
    ensures var ad := AdditionalData(c, typ, version, seqnum, plainLen);
            var end := if c.omitVersion then 9 else 11;
            && |ad| == (if c.omitLength then end else end + 2)
            && ad[..8] == seqnum && ad[8] == typ
            && (!c.omitVersion ==> ad[9..end] == Length(version))
            && (!c.omitLength ==> ad[end..] == Length(plainLen))
            && ad == seqnum + [typ] + (if c.omitVersion then [] else Length(version)) + (if c.omitLength then [] else Length(plainLen))
  {}

  /** Opening succeeds only under the nonce and the additional data that were sealed with. */
  ghost predicate Authentic(evp: Evp) {
    forall nonce, ad, plain, nonce', ad' :: (nonce, ad) != (nonce', ad') ==> Refuses(evp, nonce, ad, plain, nonce', ad')
  }

  predicate Refuses(evp: Evp, nonce: seq<byte>, ad: seq<byte>, plain: seq<byte>, nonce': seq<byte>, ad': seq<byte>) {
    evp.open(nonce', ad', evp.seal(nonce, ad, plain)) == None
  }

  /** The version is authenticated: not in SSL 3.0 with a stateful cipher, and not in TLS 1.3. */
  predicate BindsVersion(kind: Kind, tls13: bool, ssl3: bool) {
    !tls13 && !(kind.Stateful? && ssl3)
  }

  /**
   * A record sealed under a sequence number, a type and a version opens exactly under the same
   * sequence number, and before TLS 1.3 under the same type and, where it is authenticated, the same
   * version. Then it gives the plaintext.
   */
  lemma OpensExactly(kind: Kind, tls13: bool, ssl3: bool, fixedIv: seq<byte>, c: Context, evp: Evp, plain: seq<byte>, random: seq<byte>,
                     typ: byte, version: nat, seqnum: seq<byte>, typ': byte, version': nat, seqnum': seq<byte>)
    requires Create(kind, tls13, ssl3, fixedIv, evp.nonceLen) == Some(c) && |random| == c.variableLen
    requires Inverse(evp) && Authentic(evp) && (!kind.Stateful? ==> FixedOverhead(evp))
    requires |seqnum| == |seqnum'| == 8 && version < 0x1_0000 && version' < 0x1_0000 && |plain| < 0x1_0000
    ensures Created(c, evp.nonceLen)
    ensures Opened(c, evp, typ', version', seqnum', SealedBytes(c, evp, typ, version, seqnum, plain, random)) ==
            if seqnum' == seqnum && (tls13 || typ' == typ) && (BindsVersion(kind, tls13, ssl3) ==> version' == version)
            then Some(plain) else None
  {
    hide AdditionalData, Nonce, Inverse, Authentic, Refuses, FixedOverhead;
    var variable := if c.variableRandom then random else seqnum;
    var variable' := if c.variableIncluded then variable else seqnum';
    var nonce, nonce' := Nonce(c, variable), Nonce(c, variable');
    var ad, ad' := AdditionalData(c, typ, version, seqnum, |plain|), AdditionalData(c, typ', version', seqnum', |plain|);
    SealedOpens(c, evp, typ, version, seqnum, plain, random, typ', version', seqnum', variable, variable');
    if c.omitAd {
      AdditionalOmitted(c, typ, version, seqnum, |plain|);
      AdditionalOmitted(c, typ', version', seqnum', |plain|);
    } else {
      AdditionalDataInjective(c, typ, version, seqnum, |plain|, typ', version', seqnum', |plain|);
    }
    if !c.variableIncluded {
      SequenceNumbersGiveNonces(c, evp.nonceLen, seqnum, seqnum');
    }
    EvpOpens(evp, nonce, ad, plain, nonce', ad');
  }

  lemma AdditionalOmitted(c: Context, typ: byte, version: nat, seqnum: seq<byte>, plainLen: nat)
    requires c.Context? && c.omitAd
    ensures AdditionalData(c, typ, version, seqnum, plainLen) == []
  {}

  lemma EvpOpens(evp: Evp, nonce: seq<byte>, ad: seq<byte>, plain: seq<byte>, nonce': seq<byte>, ad': seq<byte>)
    requires Inverse(evp) && Authentic(evp)
    ensures evp.open(nonce', ad', evp.seal(nonce, ad, plain)) == if (nonce, ad) == (nonce', ad') then Some(plain) else None
  {
    if (nonce, ad) != (nonce', ad') {
      assert Refuses(evp, nonce, ad, plain, nonce', ad');
    }
  }

  /** Opening a sealed record under other parameters is opening its ciphertext under the nonce and the additional data they make. */
  lemma SealedOpens(c: Context, evp: Evp, typ: byte, version: nat, seqnum: seq<byte>, plain: seq<byte>, random: seq<byte>,
                    typ': byte, version': nat, seqnum': seq<byte>, variable: seq<byte>, variable': seq<byte>)
    requires c.Context? && Created(c, evp.nonceLen) && |seqnum| == |seqnum'| == 8 && |random| == c.variableLen
    requires Inverse(evp) && (!c.omitLength ==> FixedOverhead(evp))
    requires variable == (if c.variableRandom then random else seqnum) && variable' == (if c.variableIncluded then variable else seqnum')
    ensures Opened(c, evp, typ', version', seqnum', SealedBytes(c, evp, typ, version, seqnum, plain, random)) ==
            evp.open(Nonce(c, variable'), AdditionalData(c, typ', version', seqnum', if c.omitLength then 0 else |plain|),
                     evp.seal(Nonce(c, variable), AdditionalData(c, typ, version, seqnum, |plain|), plain))
    ensures c.omitLength ==> AdditionalData(c, typ', version', seqnum', 0) == AdditionalData(c, typ', version', seqnum', |plain|)
  {
    hide Nonce;
    var ad := AdditionalData(c, typ, version, seqnum, |plain|);
    var cipher := evp.seal(Nonce(c, variable), ad, plain);
    var record := SealedBytes(c, evp, typ, version, seqnum, plain, random);
    assert c.variableIncluded ==> record[..c.variableLen] == variable && record[c.variableLen..] == cipher;
    assert !c.variableIncluded ==> record == cipher;
  }
}
