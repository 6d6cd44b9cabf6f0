/** The stateless, time-bucketed DPoP nonce (services/dpop_nonce.py): section 8 of RFC 9449 over the URL-safe
    alphabet of section 5 of RFC 4648. */
module DpopNonce {
  import opened Prelude

  type Byte = x: int | 0 <= x < 256
  type Sextet = x: int | 0 <= x < 64

  /** A SHA-256 digest; the keyed hash is a parameter. */
  type Digest = s: seq<Byte> | |s| == 32 witness seq(32, _ => 0)

  /** The wall clock in whole seconds, within the range of the 64-bit field. */
  type Second = t: nat | t < 0x1_0000_0000_0000_0000

  // ---- Big-endian integers: struct's ">Q" ----

  function Pow256(k: nat): (p: nat)
    ensures p > 0
  {
    if k == 0 then 1 else 256 * Pow256(k - 1)
  }

  function Pack(n: nat, k: nat): (bytes: seq<Byte>)
    ensures |bytes| == k
  {
    if k == 0 then [] else Pack(n / 256, k - 1) + [n % 256]
  }

  function Unpack(bytes: seq<Byte>): nat {
    if bytes == [] then 0 else 256 * Unpack(bytes[..|bytes| - 1]) + bytes[|bytes| - 1]
  }

  lemma {:induction false} UnpackPack(n: nat, k: nat)
    requires n < Pow256(k)
    ensures Unpack(Pack(n, k)) == n
  {
    if k > 0 {
      UnpackPack(n / 256, k - 1);
      assert Pack(n, k)[..k - 1] == Pack(n / 256, k - 1);
    }
  }

  lemma {:induction false} PackUnpack(bytes: seq<Byte>)
    ensures Unpack(bytes) < Pow256(|bytes|) && Pack(Unpack(bytes), |bytes|) == bytes
    decreases |bytes|
  {
    if bytes != [] {
      var high := bytes[..|bytes| - 1];
      PackUnpack(high);
      assert Unpack(bytes) / 256 == Unpack(high);
    }
  }

  lemma EightBytes()
    ensures Pow256(8) == 0x1_0000_0000_0000_0000
  {
    assert Pow256(2) == 0x1_0000;
    assert Pow256(4) == 0x1_0000_0000;
  }

  // ---- Base64 ----

  /** The URL-safe alphabet. */
  function Symbol(v: Sextet): char {
    if v < 26 then ('A' as int + v) as char
    else if v < 52 then ('a' as int + v - 26) as char
    else if v < 62 then ('0' as int + v - 52) as char
    else if v == 62 then '-' else '_'
  }

  /** The decoding table: the URL-safe characters and the standard ones they are translated to; None for the others. */
  function Value(c: char): Option<Sextet> {
    if 'A' <= c <= 'Z' then Some(c as int - 'A' as int)
    else if 'a' <= c <= 'z' then Some(c as int - 'a' as int + 26)
    else if '0' <= c <= '9' then Some(c as int - '0' as int + 52)
    else if c == '-' || c == '+' then Some(62)
    else if c == '_' || c == '/' then Some(63)
    else None
  }

  lemma SymbolValue(v: Sextet)
    ensures Value(Symbol(v)) == Some(v) && Symbol(v) != '=' && (Symbol(v) as int) < 128
  {
  }

  /** `urlsafe_b64encode`, padding included. */
  function Encode(raw: seq<Byte>): string {
    if |raw| == 0 then ""
    else if |raw| == 1 then [Symbol(raw[0] / 4), Symbol(raw[0] % 4 * 16), '=', '=']
    else if |raw| == 2 then
      [Symbol(raw[0] / 4), Symbol(raw[0] % 4 * 16 + raw[1] / 16), Symbol(raw[1] % 16 * 4), '=']
    else
      var (v0, v1, v2, v3) := Sextets(raw[0], raw[1], raw[2]);
      [Symbol(v0), Symbol(v1), Symbol(v2), Symbol(v3)] + Encode(raw[3..])
  }

  /** Three bytes as four sextets, and back. */
  function Sextets(a: Byte, b: Byte, c: Byte): (v: (Sextet, Sextet, Sextet, Sextet))
    ensures a == v.0 * 4 + v.1 / 16 && b == v.1 % 16 * 16 + v.2 / 4 && c == v.2 % 4 * 64 + v.3
  {
    (a / 4, a % 4 * 16 + b / 16, b % 16 * 4 + c / 64, c % 64)
  }

  function StripPadding(s: string): string {
    if s != "" && s[|s| - 1] == '=' then StripPadding(s[..|s| - 1]) else s
  }

  /** Python's lenient `a2b_base64` from the middle of an input: `quad` counts the sextets of the open group,
      `left` holds its bits not yet written, `pads` the padding read in it.  Characters outside the alphabet are
      skipped, and a completed padding ends the input. */
  function DecodeFrom(s: string, quad: nat, left: nat, pads: nat): Option<seq<Byte>>
    requires (quad == 0 && left == 0) || (quad == 1 && left < 64) || (quad == 2 && left < 16) || (quad == 3 && left < 4)
    decreases |s|
  {
    if s == "" then (if quad == 0 then Some([]) else None)
    else if s[0] == '=' then
      if quad >= 2 && quad + pads + 1 >= 4 then Some([])
      else DecodeFrom(s[1..], quad, left, if quad >= 2 then pads + 1 else pads)
    else match Value(s[0])
      case None => DecodeFrom(s[1..], quad, left, pads)
      case Some(v) =>
        if quad == 0 then DecodeFrom(s[1..], 1, v, 0)
        else if quad == 1 then Prepend(left * 4 + v / 16, DecodeFrom(s[1..], 2, v % 16, 0))
        else if quad == 2 then Prepend(left * 16 + v / 4, DecodeFrom(s[1..], 3, v % 4, 0))
        else Prepend(left * 64 + v, DecodeFrom(s[1..], 0, 0, 0))
  }

  function Prepend(b: Byte, rest: Option<seq<Byte>>): Option<seq<Byte>> {
    if rest.Some? then Some([b] + rest.value) else None
  }

  function Padding(n: nat): string {
    seq((4 - n % 4) % 4, _ => '=')
  }

  /** `urlsafe_b64decode` of the re-padded text; None where it raises. */
  function Decode(s: string): Option<seq<Byte>> {
    if exists i :: 0 <= i < |s| && s[i] as int >= 128 then None else DecodeFrom(s + Padding(|s|), 0, 0, 0)
  }

  /** Whole groups need no padding. */
  lemma {:induction false} EncodeShape(raw: seq<Byte>)
    requires |raw| % 3 == 0
    ensures |Encode(raw)| == |raw| / 3 * 4
    ensures forall i :: 0 <= i < |Encode(raw)| ==> Encode(raw)[i] as int < 128 && Encode(raw)[i] != '='
    decreases |raw|
  {
    if raw != [] {
      var (v0, v1, v2, v3) := Sextets(raw[0], raw[1], raw[2]);
      EncodeShape(raw[3..]);
      SymbolValue(v0);
      SymbolValue(v1);
      SymbolValue(v2);
      SymbolValue(v3);
    }
  }

  /** Decoding undoes encoding for every byte string of whole groups. */
  lemma {:induction false} DecodeEncode(raw: seq<Byte>)
    requires |raw| % 3 == 0
    ensures DecodeFrom(Encode(raw), 0, 0, 0) == Some(raw)
    decreases |raw|
  {
    if raw != [] {
      var rest := raw[3..];
      DecodeEncode(rest);
      DecodeThree(raw[0], raw[1], raw[2], Encode(rest));
      assert raw == [raw[0], raw[1], raw[2]] + rest;
    }
  }

  lemma DecodeThree(a: Byte, b: Byte, c: Byte, rest: string)
    requires DecodeFrom(rest, 0, 0, 0).Some?
    ensures var (v0, v1, v2, v3) := Sextets(a, b, c);
            DecodeFrom([Symbol(v0), Symbol(v1), Symbol(v2), Symbol(v3)] + rest, 0, 0, 0)
            == Some([a, b, c] + DecodeFrom(rest, 0, 0, 0).value)
  {
    var (v0, v1, v2, v3) := Sextets(a, b, c);
    DecodeGroup(v0, v1, v2, v3, rest);
  }

  lemma DecodeGroup(v0: Sextet, v1: Sextet, v2: Sextet, v3: Sextet, rest: string)
    ensures DecodeFrom([Symbol(v0), Symbol(v1), Symbol(v2), Symbol(v3)] + rest, 0, 0, 0)
            == match DecodeFrom(rest, 0, 0, 0)
               case None => None
               case Some(raw) => Some([v0 * 4 + v1 / 16, v1 % 16 * 16 + v2 / 4, v2 % 4 * 64 + v3] + raw)
  {
    SymbolValue(v0);
    SymbolValue(v1);
    SymbolValue(v2);
    SymbolValue(v3);
    var s3 := [Symbol(v3)] + rest;
    var s2 := [Symbol(v2)] + s3;
    var s1 := [Symbol(v1)] + s2;
    var s0 := [Symbol(v0)] + s1;
    assert s0 == [Symbol(v0), Symbol(v1), Symbol(v2), Symbol(v3)] + rest;
    assert s0[1..] == s1 && s1[1..] == s2 && s2[1..] == s3 && s3[1..] == rest;
    assert DecodeFrom(s3, 3, v2 % 4, 0) == Prepend(v2 % 4 * 64 + v3, DecodeFrom(rest, 0, 0, 0));
    assert DecodeFrom(s2, 2, v1 % 16, 0) == Prepend(v1 % 16 * 16 + v2 / 4, DecodeFrom(s3, 3, v2 % 4, 0));
    assert DecodeFrom(s1, 1, v0, 0) == Prepend(v0 * 4 + v1 / 16, DecodeFrom(s2, 2, v1 % 16, 0));
    assert DecodeFrom(s0, 0, 0, 0) == DecodeFrom(s1, 1, v0, 0);
    var raw := DecodeFrom(rest, 0, 0, 0);
    if raw.Some? {
      var b0, b1, b2: Byte := v0 * 4 + v1 / 16, v1 % 16 * 16 + v2 / 4, v2 % 4 * 64 + v3;
      assert [b0] + ([b1] + ([b2] + raw.value)) == [b0, b1, b2] + raw.value;
    }
  }

  // ---- The issuer ----

  function Bucket(lifetime: int, t: Second): (b: nat)
    ensures b < 0x1_0000_0000_0000_0000
  {
    t / AtLeastOne(lifetime)
  }

  function Raw(mac: seq<Byte> -> Digest, bucket: nat): (raw: seq<Byte>)
    ensures |raw| == 24
  {
    var bytes := Pack(bucket, 8);
    bytes + mac(bytes)[..16]
  }

  function EncodeBucket(mac: seq<Byte> -> Digest, bucket: nat): string {
    StripPadding(Encode(Raw(mac, bucket)))
  }

  function Issue(mac: seq<Byte> -> Digest, lifetime: int, t: Second): string {
    EncodeBucket(mac, Bucket(lifetime, t))
  }

  datatype Verdict = Accepted | Stale | Invalid

  function Verify(mac: seq<Byte> -> Digest, lifetime: int, nonce: string, now: Second): Verdict {
    match Decode(nonce)
    case None => Invalid
    case Some(raw) =>
      if |raw| != 24 then Invalid
      else
        var bytes, tag := raw[..8], raw[8..];
        if tag != mac(bytes)[..16] then Invalid
        else
          var bucket, current := Unpack(bytes), Bucket(lifetime, now);
          if bucket == current || bucket == current - 1 then Accepted else Stale
  }

  lemma NonceDecodes(mac: seq<Byte> -> Digest, bucket: nat)
    requires bucket < 0x1_0000_0000_0000_0000
    ensures |EncodeBucket(mac, bucket)| == 32
    ensures Decode(EncodeBucket(mac, bucket)) == Some(Raw(mac, bucket))
    ensures Unpack(Raw(mac, bucket)[..8]) == bucket
  {
    var raw := Raw(mac, bucket);
    EncodeShape(raw);
    DecodeEncode(raw);
    assert EncodeBucket(mac, bucket) == Encode(raw);
    assert Encode(raw) + Padding(32) == Encode(raw);
    EightBytes();
    UnpackPack(bucket, 8);
    assert raw[..8] == Pack(bucket, 8);
  }

  /** What is accepted: exactly the texts that decode to the very bytes issued for this bucket or the one before.  What
      is stale: those of any other bucket.  Everything else is invalid. */
  lemma VerdictsCharacterized(mac: seq<Byte> -> Digest, lifetime: int, nonce: string, now: Second)
    ensures var current := Bucket(lifetime, now);
            && (Verify(mac, lifetime, nonce, now).Accepted?
                <==> Decode(nonce) == Some(Raw(mac, current))
                     || (current > 0 && Decode(nonce) == Some(Raw(mac, current - 1))))
            && (Verify(mac, lifetime, nonce, now).Stale?
                <==> exists b: nat :: b < 0x1_0000_0000_0000_0000 && b != current && b != current - 1
                                      && Decode(nonce) == Some(Raw(mac, b)))
  {
    EightBytes();
    var current := Bucket(lifetime, now);
    forall b: nat | b < 0x1_0000_0000_0000_0000
      ensures Unpack(Raw(mac, b)[..8]) == b && Raw(mac, b)[8..] == mac(Raw(mac, b)[..8])[..16]
    {
      UnpackPack(b, 8);
      assert Raw(mac, b)[..8] == Pack(b, 8);
    }
    if Decode(nonce).Some? && |Decode(nonce).value| == 24 {
      var raw := Decode(nonce).value;
      PackUnpack(raw[..8]);
      assert raw == raw[..8] + raw[8..];
      assert raw[8..] == mac(raw[..8])[..16] ==> raw == Raw(mac, Unpack(raw[..8]));
    }
  }

  /** A nonce issued at `t` has 32 characters, and at any second it is accepted exactly during the bucket of `t` and the
      next; outside it is stale, never invalid. */
  lemma IssuedNonceWindow(mac: seq<Byte> -> Digest, lifetime: int, t: Second, now: Second)
    ensures |Issue(mac, lifetime, t)| == 32
    ensures var L := AtLeastOne(lifetime);
            Verify(mac, lifetime, Issue(mac, lifetime, t), now)
            == if t - t % L <= now < t - t % L + 2 * L then Accepted else Stale
  {
    var L := AtLeastOne(lifetime);
    var b, current := Bucket(lifetime, t), Bucket(lifetime, now);
    NonceDecodes(mac, b);
    var raw := Raw(mac, b);
    assert raw[..8] == Pack(b, 8);
    BucketBounds(L, t, now);
  }

  lemma TimesMonotone(a: nat, b: nat, L: nat)
    requires a <= b
    ensures a * L <= b * L
  {
  }

  lemma QuotientAtLeast(L: nat, x: nat, q: nat)
    requires L >= 1
    ensures x / L >= q <==> x >= q * L
  {
    var u := x / L;
    assert u * L <= x < (u + 1) * L;
    if u >= q {
      TimesMonotone(q, u, L);
    } else {
      TimesMonotone(u + 1, q, L);
    }
  }

  lemma BucketBounds(L: nat, t: nat, now: nat)
    requires L >= 1
    ensures t - t % L == t / L * L
    ensures now / L >= t / L <==> now >= t / L * L
    ensures now / L <= t / L + 1 <==> now < t / L * L + 2 * L
  {
    var q := t / L;
    QuotientAtLeast(L, now, q);
    QuotientAtLeast(L, now, q + 2);
    assert (q + 2) * L == q * L + 2 * L;
  }

  /** The promised window: accepted at every second from issue to one lifetime later, stale from two lifetimes on. */
  lemma AcceptedForALifetime(mac: seq<Byte> -> Digest, lifetime: int, t: Second, now: Second)
    ensures var L, verdict := AtLeastOne(lifetime), Verify(mac, lifetime, Issue(mac, lifetime, t), now);
            && (t <= now <= t + L ==> verdict == Accepted)
            && (now >= t + 2 * L ==> verdict == Stale)
  {
    IssuedNonceWindow(mac, lifetime, t, now);
    var L := AtLeastOne(lifetime);
    assert 0 <= t % L < L;
  }

  // ---- The gate in front of a validated proof ----

  datatype Gate = Proceed | Challenge(nonce: string) | Refuse

  function Enforce(mac: seq<Byte> -> Digest, lifetime: int, nonce: Option<string>, now: Second): Gate {
    if nonce.None? then Challenge(Issue(mac, lifetime, now))
    else match Verify(mac, lifetime, nonce.value, now)
      case Accepted => Proceed
      case Stale => Challenge(Issue(mac, lifetime, now))
      case Invalid => Refuse
  }

  /** A challenged client that retries with the nonce it was handed gets through for at least a lifetime, and later is
      challenged again; and the gate hands a nonce only to a proof that carried none or one signed by this issuer. */
  lemma ChallengeLeadsThrough(mac: seq<Byte> -> Digest, lifetime: int, nonce: Option<string>, t: Second, now: Second)
    requires Enforce(mac, lifetime, nonce, t).Challenge?
    ensures var handed := Enforce(mac, lifetime, nonce, t).nonce;
            && (t <= now <= t + AtLeastOne(lifetime) ==> Enforce(mac, lifetime, Some(handed), now) == Proceed)
            && (now >= t + 2 * AtLeastOne(lifetime)
                ==> Enforce(mac, lifetime, Some(handed), now) == Challenge(Issue(mac, lifetime, now)))
    ensures nonce.Some? ==> exists b: nat :: b < 0x1_0000_0000_0000_0000 && Decode(nonce.value) == Some(Raw(mac, b))
  {
    AcceptedForALifetime(mac, lifetime, t, now);
    if nonce.Some? {
      VerdictsCharacterized(mac, lifetime, nonce.value, t);
    }
  }

  // ---- The decoder and the tag, spelled out ----

  /** A text is not invalid exactly when it decodes to eight bytes followed by the first sixteen bytes of their keyed
      hash. */
  lemma SignedExactly(mac: seq<Byte> -> Digest, lifetime: int, nonce: string, now: Second)
    ensures Verify(mac, lifetime, nonce, now) != Invalid
            <==> exists bytes: seq<Byte> :: |bytes| == 8 && Decode(nonce) == Some(bytes + mac(bytes)[..16])
  {
    if Verify(mac, lifetime, nonce, now) != Invalid {
      var raw := Decode(nonce).value;
      assert raw == raw[..8] + mac(raw[..8])[..16];
    }
    if bytes: seq<Byte> :| |bytes| == 8 && Decode(nonce) == Some(bytes + mac(bytes)[..16]) {
      var raw := bytes + mac(bytes)[..16];
      assert raw[..8] == bytes && raw[8..] == mac(bytes)[..16];
    }
  }
}
