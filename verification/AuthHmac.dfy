/** authhmac/authhmac.go: signed envelopes. The MAC (section 2 of RFC 2104) is any
    deterministic function of secret and payload; clock readings and random bytes are
    parameters. */
module AuthHmac {
  import opened Wrappers
  import opened Integers
  import opened Codec

  // ----- buildPayload -----

  const TWO32: nat := 0x1_0000_0000
  const TWO16: nat := 0x1_0000

  /** The triple that a signature covers. */
  datatype Signed = Signed(data: Bytes, ts: int, nonce: Bytes)

  ghost predicate WellFormed(x: Signed) {
    IsInt64(x.ts)
  }

  /** uint32 length | data | uint64 timestamp | uint16 length | nonce; both lengths and the
      timestamp are truncated to their widths, as the conversions of the source do. */
  function Payload(x: Signed): Bytes {
    BigEndian(|x.data| % TWO32, 4) + x.data + BigEndian(x.ts % TWO64, 8)
    + BigEndian(|x.nonce| % TWO16, 2) + x.nonce
  }

  /** binary.BigEndian.PutUint16, PutUint32 and PutUint64, on out[at..at + width]. */
  method PutBigEndian(out: array<byte>, at: nat, width: nat, v: nat)
    requires at + width <= out.Length
    modifies out
    ensures out[..at + width] == old(out[..at]) + BigEndian(v, width)
    ensures out[at + width..] == old(out[at + width..])
  {
    var rest := v;
    var k := width;
    ghost var whole := BigEndian(v, width);
    while k > 0
      invariant 0 <= k <= width
      invariant whole == BigEndian(rest, k) + out[at + k..at + width]
      invariant out[..at] == old(out[..at]) && out[at + width..] == old(out[at + width..])
    {
      k := k - 1;
      ghost var tail := out[at + k + 1..at + width];
      out[at + k] := (rest % 256) as byte;
      assert out[at + k..at + width] == [(rest % 256) as byte] + tail;
      rest := rest / 256;
    }
    assert out[..at + width] == out[..at] + out[at + k..at + width];
  }

  /** copy(out[at:], src). */
  method CopyInto(out: array<byte>, at: nat, src: Bytes)
    requires at + |src| <= out.Length
    modifies out
    ensures out[..at + |src|] == old(out[..at]) + src
    ensures out[at + |src|..] == old(out[at + |src|..])
  {
    for k := 0 to |src|
      invariant out[..at + k] == old(out[..at]) + src[..k]
      invariant out[at + |src|..] == old(out[at + |src|..])
    {
      out[at + k] := src[k];
      assert out[..at + k + 1] == out[..at + k] + [src[k]];
    }
  }

  /** The buffer is allocated at its final size and filled from left to right. */
  method BuildPayload(x: Signed) returns (out: array<byte>)
    ensures fresh(out) && out[..] == Payload(x)
  {
    var data, nonce := x.data, x.nonce;
    var total := 4 + |data| + 8 + 2 + |nonce|;
    out := new byte[total];
    var i := 0;
    PutBigEndian(out, i, 4, |data| % TWO32);
    i := i + 4;
    ghost var written := BigEndian(|data| % TWO32, 4);
    assert out[..i] == written;
    CopyInto(out, i, data);
    i := i + |data|;
    written := written + data;
    assert out[..i] == written;
    PutBigEndian(out, i, 8, x.ts % TWO64);
    i := i + 8;
    written := written + BigEndian(x.ts % TWO64, 8);
    assert out[..i] == written;
    PutBigEndian(out, i, 2, |nonce| % TWO16);
    i := i + 2;
    written := written + BigEndian(|nonce| % TWO16, 2);
    assert out[..i] == written;
    CopyInto(out, i, nonce);
    assert out[..] == out[..i + |nonce|];
  }

  /** The inverse: the length prefix says where the data ends; the nonce is all the rest. */
  function Parse(p: Bytes): Option<Signed> {
    if |p| < 4 then None
    else
      var n := FromBigEndian(p[..4]);
      if |p| < 4 + n + 10 then None
      else Some(ParseAt(p, n))
  }

  /** The triple that p holds if its data is n bytes long. */
  function ParseAt(p: Bytes, n: nat): Signed
    requires |p| >= 4 + n + 10
  {
    Signed(p[4..4 + n], Wrap64(FromBigEndian(p[4 + n..12 + n])), p[14 + n..])
  }

  lemma PayloadParts(x: Signed)
    ensures var p, n := Payload(x), |x.data|;
      && |p| == 14 + n + |x.nonce|
      && p[..4] == BigEndian(n % TWO32, 4)
      && p[4..4 + n] == x.data
      && p[4 + n..12 + n] == BigEndian(x.ts % TWO64, 8)
      && p[12 + n..14 + n] == BigEndian(|x.nonce| % TWO16, 2)
      && p[14 + n..] == x.nonce
  {
  }

  /** The documented format, byte by byte: the low 32 bits of the length of the data, the data,
      the 64 bits of the timestamp, the low 16 bits of the length of the nonce, the nonce. */
  lemma FormatIsDocumented(x: Signed, i: nat)
    ensures var p, n, m := Payload(x), |x.data|, |x.nonce|;
      && |p| == 4 + n + 8 + 2 + m && p[4..4 + n] == x.data && p[4 + n + 8 + 2..] == x.nonce
      && (i < 4 ==> p[3 - i] as int == n / Pow256(i) % 256)
      && (i < 8 ==> p[4 + n + 7 - i] as int == x.ts % 0x1_0000_0000_0000_0000 / Pow256(i) % 256)
      && (i < 2 ==> p[4 + n + 8 + 1 - i] as int == m / Pow256(i) % 256)
  {
    var p, n, m := Payload(x), |x.data|, |x.nonce|;
    PayloadParts(x);
    Widths();
    BigEndianTruncates(n, 4);
    BigEndianTruncates(m, 2);
    if i < 4 {
      BigEndianAt(n, 4, i);
      assert p[3 - i] == p[..4][3 - i];
    }
    if i < 8 {
      BigEndianAt(x.ts % TWO64, 8, i);
      assert p[4 + n + 7 - i] == p[4 + n..12 + n][7 - i];
    }
    if i < 2 {
      BigEndianAt(m, 2, i);
      assert p[4 + n + 8 + 1 - i] == p[12 + n..14 + n][1 - i];
    }
  }

  /** The length of the data is all that is needed to recover the triple. */
  lemma ParseAtInverts(x: Signed)
    requires WellFormed(x)
    ensures |Payload(x)| >= 4 + |x.data| + 10 && ParseAt(Payload(x), |x.data|) == x
  {
    PayloadParts(x);
    Widths();
    BigEndianRoundTrip(x.ts % TWO64, 8);
    UnsignedRoundTrip(x.ts);
  }

  lemma UnsignedRoundTrip(ts: int)
    requires IsInt64(ts)
    ensures Wrap64(ts % TWO64) == ts
  {
  }

  lemma PrefixIsLength(p: Bytes, n: nat)
    requires n < TWO32 && |p| >= 4 && p[..4] == BigEndian(n % TWO32, 4)
    ensures FromBigEndian(p[..4]) == n
  {
    Widths();
    BigEndianRoundTrip(n % TWO32, 4);
  }

  /** Round trip for all data below 2^32 bytes, every timestamp, a nonce of any length. */
  lemma ParseInverts(x: Signed)
    requires WellFormed(x) && |x.data| < TWO32
    ensures Parse(Payload(x)) == Some(x)
  {
    PayloadParts(x);
    PrefixIsLength(Payload(x), |x.data|);
    ParseAtInverts(x);
  }

  lemma PayloadIsInjective(x: Signed, y: Signed)
    requires WellFormed(x) && WellFormed(y) && |x.data| < TWO32 && |y.data| < TWO32
    requires Payload(x) == Payload(y)
    ensures x == y
  {
    ParseInverts(x);
    ParseInverts(y);
  }

  /** Without the size limit: payloads that agree come from the same triple exactly when
      the data have the same length, */
  lemma CollisionExactly(x: Signed, y: Signed)
    requires WellFormed(x) && WellFormed(y) && Payload(x) == Payload(y)
    ensures x == y <==> |x.data| == |y.data|
  {
    ParseAtInverts(x);
    ParseAtInverts(y);
  }

  function Zeros(n: nat): (b: Bytes)
    ensures |b| == n
  {
    seq(n, _ => 0 as byte)
  }

  lemma {:induction false} ZeroEncoding(width: nat)
    ensures BigEndian(0, width) == Zeros(width)
  {
    if width == 0 {
    } else {
      ZeroEncoding(width - 1);
    }
  }

  /** ... and lengths that differ by 2^32 do collide. */
  lemma LongDataCollides(x: Signed, y: Signed)
    requires x == Signed(Zeros(TWO32), 0, []) && y == Signed([], 0, Zeros(TWO32))
    ensures Payload(x) == Payload(y) && x != y
  {
    ZeroEncoding(2);
    ZeroEncoding(4);
    ZeroEncoding(8);
    assert Payload(x) == Zeros(14 + TWO32);
    assert Payload(y) == Zeros(14 + TWO32);
    assert |x.data| != |y.data|;
  }

  // ----- clock arithmetic -----

  const SECOND: int := 1_000_000_000
  /** Seconds between year 1, where time.Time counts from, and the Unix epoch. */
  const UNIX_TO_INTERNAL: int := 62135596800

  /** 1969 years of the Gregorian calendar. */
  lemma EpochIs()
    ensures UNIX_TO_INTERNAL == (1969 * 365 + 1969 / 4 - 1969 / 100 + 1969 / 400) * 24 * 60 * 60
  {
  }

  /** An instant that time.Time represents, in nanoseconds since the Unix epoch. */
  type Instant = t: int | -TWO63 * SECOND <= t < (TWO63 - UNIX_TO_INTERNAL) * SECOND

  /** time.Unix(ts, 0): the internal seconds wrap for the largest timestamps. */
  function UnixTime(ts: int): int {
    (Wrap64(ts + UNIX_TO_INTERNAL) - UNIX_TO_INTERNAL) * SECOND
  }

  /** t.Unix(). */
  function UnixSeconds(t: Instant): int {
    t / SECOND
  }

  /** t.Sub(u): the difference, saturated to an int64 duration. */
  function Sub(t: int, u: int): (d: int)
    ensures IsInt64(d)
  {
    if t - u < -TWO63 then -TWO63 else if t - u >= TWO63 then TWO63 - 1 else t - u
  }

  // ----- Validate and Generate -----

  datatype Hmac = Hmac(signature: Bytes, nonce: Bytes, timestamp: Bytes)

  /** skew and ttl are durations: int64 counts of nanoseconds. */
  datatype Auth = Auth(skew: int, ttl: int, secret: Bytes)

  datatype AuthError = InvalidTimestamp | SkewTooLarge | InFuture | TooOld | InvalidSignature

  type Mac = (Bytes, Bytes) -> Bytes

  /** The time checks of Validate. Negating the smallest duration leaves it negative. */
  function CheckTime(a: Auth, now: Instant, ts: int): Option<AuthError> {
    var createdAt := UnixTime(ts);
    var d := Sub(now, createdAt);
    var drift := if d < 0 then Wrap64(-d) else d;
    if a.skew > 0 && drift > a.skew then Some(SkewTooLarge)
    else if a.skew <= 0 && createdAt > now then Some(InFuture)
    else
      var age := if d < 0 then 0 else d;
      if a.ttl > 0 && age > a.ttl then Some(TooOld) else None
  }

  function Validate(mac: Mac, a: Auth, now: Instant, data: Bytes, req: Hmac): Option<AuthError> {
    match ParseInt(req.timestamp)
    case None => Some(InvalidTimestamp)
    case Some(ts) =>
      if ts <= 0 then Some(InvalidTimestamp)
      else
        var late := CheckTime(a, now, ts);
        if late.Some? then late
        else
          match HexDecode(req.signature)
          case None => Some(InvalidSignature)
          case Some(raw) =>
            if mac(a.secret, Payload(Signed(data, ts, req.nonce))) == raw then None else Some(InvalidSignature)
  }

  /** random stands for the 16 bytes drawn for the nonce. */
  function Generate(mac: Mac, a: Auth, now: Instant, data: Bytes, random: Bytes): Hmac {
    var ts := UnixSeconds(now);
    var nonce := HexEncode(random);
    Hmac(HexEncode(mac(a.secret, Payload(Signed(data, ts, nonce)))), nonce, FormatInt(ts))
  }

  // ----- what is claimed -----

  /** The documented window, for an age of d nanoseconds. */
  predicate InWindow(a: Auth, d: int) {
    && (if a.skew > 0 then -a.skew <= d <= a.skew else d >= 0)
    && (a.ttl > 0 ==> d <= a.ttl)
  }

  ghost predicate Durations(a: Auth) {
    IsInt64(a.skew) && IsInt64(a.ttl)
  }

  /** The age of ts at now, unless the internal seconds of ts wrap. */
  function Age(now: int, ts: int): int {
    now - UnixTime(ts)
  }

  lemma UnixTimeIs(ts: int)
    requires IsInt64(ts) && ts < TWO63 - UNIX_TO_INTERNAL
    ensures UnixTime(ts) == ts * SECOND
  {
  }

  /** A timestamp so large that its internal seconds wrap counts as one from before year 1, so
      any skew below the largest rejects it. */
  lemma LargestTimestampsAreOld(a: Auth, now: Instant, ts: int)
    requires Durations(a) && TWO63 - UNIX_TO_INTERNAL <= ts < TWO63 && now >= 0
    ensures UnixTime(ts) == (ts - TWO64) * 1_000_000_000
    ensures 0 < a.skew < TWO63 - 1 ==> CheckTime(a, now, ts) == Some(SkewTooLarge)
  {
  }

  /** The time checks accept exactly the documented window wherever the age is a duration
      above the smallest one. */
  lemma WindowIsExact(a: Auth, now: Instant, ts: int)
    requires Durations(a) && -TWO63 < Age(now, ts) < TWO63
    ensures CheckTime(a, now, ts) == None <==> InWindow(a, Age(now, ts))
  {
  }

  /** What the time checks accept for every timestamp, saturation included: with skew on,
      an age at or below the smallest duration passes; one above the largest counts as it. */
  lemma TimeChecksExactly(a: Auth, now: Instant, ts: int)
    requires Durations(a)
    ensures CheckTime(a, now, ts) == None <==>
      (a.skew > 0 && Age(now, ts) <= -TWO63)
      || InWindow(a, if Age(now, ts) >= TWO63 then TWO63 - 1 else Age(now, ts))
  {
  }

  /** Which error the time checks give: skew comes first, and age only counts from zero on. */
  lemma TimeErrorsExactly(a: Auth, now: Instant, ts: int)
    requires Durations(a)
    ensures var r, age := CheckTime(a, now, ts), if Age(now, ts) >= TWO63 then TWO63 - 1 else Age(now, ts);
      && (r == Some(SkewTooLarge) <==> a.skew > 0 && (age > a.skew || -TWO63 < age < -a.skew))
      && (r == Some(InFuture) <==> a.skew <= 0 && age < 0)
      && (r == Some(TooOld) <==> r != Some(SkewTooLarge) && r != Some(InFuture) && 0 < a.ttl < age)
      && r != Some(InvalidTimestamp) && r != Some(InvalidSignature)
  {
  }

  /** A limit that is off, or that no saturated age can exceed. */
  predicate Limitless(limit: int) {
    limit <= 0 || limit == TWO63 - 1
  }

  /** So the documented window is kept exactly outside two saturated cases: skew is on and
      the age is at most the smallest duration, or the age is above every duration and the
      limits that are on are both the largest one. */
  lemma WindowHoldsExactly(a: Auth, now: Instant, ts: int)
    requires Durations(a)
    ensures (CheckTime(a, now, ts) == None <==> InWindow(a, Age(now, ts))) <==>
      !(a.skew > 0 && Age(now, ts) <= -TWO63)
      && !(Age(now, ts) >= TWO63 && (a.skew > 0 || a.ttl > 0) && Limitless(a.skew) && Limitless(a.ttl))
  {
    TimeChecksExactly(a, now, ts);
  }

  /** A timestamp three centuries ahead passes a skew of 30 seconds. */
  lemma FarFutureLeavesWindow(a: Auth)
    requires a.skew == 30 * SECOND && a.ttl == 60 * SECOND
    ensures CheckTime(a, 0, 10_000_000_000) == None && !InWindow(a, Age(0, 10_000_000_000))
  {
    UnixTimeIs(10_000_000_000);
  }

  /** Enlarging a positive skew or a positive ttl never rejects what was accepted. */
  lemma LargerWindowAcceptsMore(a: Auth, b: Auth, now: Instant, ts: int)
    requires Durations(a) && Durations(b)
    requires a.skew == b.skew || 0 < a.skew <= b.skew
    requires a.ttl == b.ttl || 0 < a.ttl <= b.ttl
    requires CheckTime(a, now, ts) == None
    ensures CheckTime(b, now, ts) == None
  {
  }

  /** Sign and verify: an envelope made at g is accepted at v, for the same secret and data,
      exactly when its whole-second timestamp is positive and passes the time checks at v. */
  lemma RoundTripExactly(mac: Mac, signer: Auth, verifier: Auth, g: Instant, v: Instant, data: Bytes, random: Bytes)
    requires signer.secret == verifier.secret
    ensures Validate(mac, verifier, v, data, Generate(mac, signer, g, data, random)) == None <==>
      UnixSeconds(g) > 0 && CheckTime(verifier, v, UnixSeconds(g)) == None
  {
    var ts := UnixSeconds(g);
    DecimalRoundTrip(ts);
    HexRoundTrip(mac(signer.secret, Payload(Signed(data, ts, HexEncode(random)))));
  }

  /** What an envelope holds: the whole second of the clock in decimal, the random bytes in
      hexadecimal, and the MAC of data, second and nonce. */
  lemma GeneratesExactly(mac: Mac, a: Auth, now: Instant, data: Bytes, random: Bytes)
    ensures var req := Generate(mac, a, now, data, random);
      && ParseInt(req.timestamp).Some?
      && var ts := ParseInt(req.timestamp).value;
      && ts * 1_000_000_000 <= now < (ts + 1) * 1_000_000_000
      && HexDecode(req.nonce) == Some(random) && |req.nonce| == 2 * |random|
      && HexDecode(req.signature) == Some(mac(a.secret, Payload(Signed(data, ts, req.nonce))))
  {
    DecimalRoundTrip(UnixSeconds(now));
    HexRoundTrip(random);
    HexRoundTrip(mac(a.secret, Payload(Signed(data, UnixSeconds(now), HexEncode(random)))));
  }

  /** The first check that fails decides: the timestamp, the time, the signature. */
  lemma FirstFailureDecides(mac: Mac, a: Auth, now: Instant, data: Bytes, req: Hmac)
    ensures var r, ts := Validate(mac, a, now, data, req), ParseInt(req.timestamp);
      && (r == Some(InvalidTimestamp) <==> ts == None || ts.value <= 0)
      && (ts.Some? && ts.value > 0 ==>
            var late, raw := CheckTime(a, now, ts.value), HexDecode(req.signature);
            && (late.Some? ==> r == late)
            && (late == None ==>
                  && (r == Some(InvalidSignature) || r == None)
                  && (r == None <==>
                      raw.Some? && raw.value == mac(a.secret, Payload(Signed(data, ts.value, req.nonce))))))
  {
    var ts := ParseInt(req.timestamp);
    if ts.Some? && ts.value > 0 {
      var late := CheckTime(a, now, ts.value);
    }
  }

  /** In terms of the clocks: for ages that are durations, exactly when v minus the whole
      second of g lies in the verifier's window. */
  lemma RoundTripWindow(mac: Mac, signer: Auth, verifier: Auth, g: Instant, v: Instant, data: Bytes, random: Bytes)
    requires signer.secret == verifier.secret && Durations(verifier) && UnixSeconds(g) > 0
    requires -TWO63 < v - UnixSeconds(g) * SECOND < TWO63
    ensures Validate(mac, verifier, v, data, Generate(mac, signer, g, data, random)) == None <==>
      InWindow(verifier, v - UnixSeconds(g) * SECOND)
  {
    RoundTripExactly(mac, signer, verifier, g, v, data, random);
    UnixTimeIs(UnixSeconds(g));
    WindowIsExact(verifier, v, UnixSeconds(g));
  }

  /** Hence always, with positive skew and ttl, up to one second less than the smaller. */
  lemma FreshEnvelopeAccepted(mac: Mac, a: Auth, g: Instant, v: Instant, data: Bytes, random: Bytes)
    requires Durations(a) && a.skew > 0 && a.ttl > 0 && g >= SECOND
    requires 0 <= v - g <= a.skew - SECOND && v - g <= a.ttl - SECOND
    ensures Validate(mac, a, v, data, Generate(mac, a, g, data, random)) == None
  {
    RoundTripWindow(mac, a, a, g, v, data, random);
  }

  /** Integrity: two accepted requests with the same decoded signature under one secret are
      for the same data, timestamp and nonce, or exhibit two payloads with the same MAC. */
  lemma SignatureBindsTriple(mac: Mac, a: Auth, v1: Instant, v2: Instant,
                             data1: Bytes, data2: Bytes, req1: Hmac, req2: Hmac)
    requires |data1| < TWO32 && |data2| < TWO32
    requires Validate(mac, a, v1, data1, req1) == None && Validate(mac, a, v2, data2, req2) == None
    requires HexDecode(req1.signature) == HexDecode(req2.signature)
    ensures var x := Signed(data1, ParseInt(req1.timestamp).value, req1.nonce);
      var y := Signed(data2, ParseInt(req2.timestamp).value, req2.nonce);
      x == y || (Payload(x) != Payload(y) && mac(a.secret, Payload(x)) == mac(a.secret, Payload(y)))
  {
    var x := Signed(data1, ParseInt(req1.timestamp).value, req1.nonce);
    var y := Signed(data2, ParseInt(req2.timestamp).value, req2.nonce);
    if Payload(x) == Payload(y) {
      PayloadIsInjective(x, y);
    }
  }
}
