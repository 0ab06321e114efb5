/** Which messages the reader's integrity check lets through (section 15.4 of RFC 5389). */
module Integrity {
  import opened Bits
  import opened Options
  import opened Wire
  import opened Incremental
  import opened Sealing
  import MessageBytes

  /** The message up to the attribute, announcing a body that ends with it. */
  function Resized(b: seq<Byte>, n: nat, length: nat): seq<Byte>
    requires 20 <= n <= |b| && length < 0x1_0000
  {
    b[..2] + [length / 256, length % 256] + b[4..n]
  }

  /** Attribute `i` is the last MESSAGE-INTEGRITY, ends the message or is followed by a final FINGERPRINT, and is the
      keyed hash of what is in front of it; a length that counts a FINGERPRINT of eight bytes is reduced by it. */
  ghost predicate HashHolds(hmac: MacFn, key: seq<Byte>, b: seq<Byte>, fs: seq<Located>, i: nat)
    requires |b| >= 20 && i < |fs| && 24 <= fs[i].offset && fs[i].offset + fs[i].size <= |b|
  {
    var o := fs[i].offset;
    && fs[i].kind == 0x0008 && fs[i].size == 20 && (forall j :: i < j < |fs| ==> fs[j].kind != 0x0008)
    && if i == |fs| - 1 then b[o..o + 20] == hmac(key, b[..o - 4])
       else
         && i == |fs| - 2 && fs[i + 1].kind == 0x8028 && MessageBytes.Announced(b) >= 8
         && b[o..o + 20] == hmac(key, Resized(b, o - 4, MessageBytes.Announced(b) - 8))
  }

  lemma RehashedIs(b: seq<Byte>, a: Located)
    requires |b| >= 20 && 24 <= a.offset <= |b|
    ensures Rehashed(b, a, false) == b[..a.offset - 4]
    ensures MessageBytes.Announced(b) >= 8 ==>
              Rehashed(b, a, true) == Resized(b, a.offset - 4, MessageBytes.Announced(b) - 8)
  {
    RehashedPlain(b, a);
  }

  lemma HashIff(hmac: MacFn, key: seq<Byte>, b: seq<Byte>, fs: seq<Located>)
    requires Usable(b, fs) && LastIndex(fs, INTEGRITY) >= 0
    requires fs[LastIndex(fs, INTEGRITY)].size == 20 ==> MessageBytes.Announced(b) >= 24
    ensures var i := LastIndex(fs, INTEGRITY);
            && Placed(b, fs[i])
            && (IntegrityValid(hmac, key, b, fs) <==> key != [] && HashHolds(hmac, key, b, fs, i))
  {
    hide LastIndex, Rehashed, MessageBytes.Announced, Resized;
    assert forall i :: 0 <= i < |fs| ==> Placed(b, fs[i]);
    RehashedIs(b, fs[LastIndex(fs, INTEGRITY)]);
    LastFingerprint(fs);
  }

  lemma OnlyLast(hmac: MacFn, key: seq<Byte>, b: seq<Byte>, fs: seq<Located>, i: nat)
    requires Usable(b, fs) && i < |fs| && Placed(b, fs[i]) && HashHolds(hmac, key, b, fs, i)
    ensures LastIndex(fs, INTEGRITY) == i
  {
    hide LastIndex;
    var j := LastIndex(fs, INTEGRITY);
    assert fs[i].kind == INTEGRITY;
  }

  /** An accepted message passes under a key if and only if the key is not empty and the hash holds. */
  lemma IntegrityIff(hmac: MacFn, key: seq<Byte>, allowLegacy: bool, b: seq<Byte>)
    requires OneShot(allowLegacy, b).state == BodyValidated
    ensures |b| >= 20 && Usable(b, OneShot(allowLegacy, b).attributes)
    ensures var fs := OneShot(allowLegacy, b).attributes;
            && (forall i :: 0 <= i < |fs| ==> Placed(b, fs[i]))
            && (IntegrityValid(hmac, key, b, fs) <==>
                  key != [] && exists i :: 0 <= i < |fs| && HashHolds(hmac, key, b, fs, i))
  {
    AcceptedUsable(allowLegacy, b);
    hide OneShot, LastIndex, HashHolds;
    var fs := OneShot(allowLegacy, b).attributes;
    var i := LastIndex(fs, INTEGRITY);
    if i >= 0 {
      TwoFit(allowLegacy, b, i);
      HashIff(hmac, key, b, fs);
    }
    forall j | 0 <= j < |fs| && HashHolds(hmac, key, b, fs, j) ensures j == i {
      OnlyLast(hmac, key, b, fs, j);
    }
  }

  lemma LastFingerprint(fs: seq<Located>)
    requires fs != []
    ensures LastIndex(fs, FINGERPRINT) == |fs| - 1 <==> fs[|fs| - 1].kind == 0x8028
  {
    hide LastIndex;
    var i := LastIndex(fs, FINGERPRINT);
    if i < |fs| - 1 {
      assert fs[|fs| - 1].kind != FINGERPRINT;
    }
  }

  /** A message with an attribute behind another announces at least eight bytes. */
  lemma TwoFit(allowLegacy: bool, b: seq<Byte>, i: nat)
    requires OneShot(allowLegacy, b).state == BodyValidated && i < |OneShot(allowLegacy, b).attributes|
    requires |b| >= 20
    ensures OneShot(allowLegacy, b).attributes[i].size == 20 ==> MessageBytes.Announced(b) >= 24
  {
    AcceptedUsable(allowLegacy, b);
    AcceptedIffParsed(allowLegacy, b);
    MessageBytes.HeaderIff(b, allowLegacy);
    hide OneShot, ReadHeader, ParseFrom, MessageBytes.HeaderHolds, MessageBytes.Announced;
    assert Placed(b, OneShot(allowLegacy, b).attributes[i]);
  }
}
