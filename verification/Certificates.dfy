/** The certificate authority's arithmetic: serial numbers, validity windows and reported expiry. */
module Certificates {
  import opened Common

  const NANOS_PER_SECOND := 1_000_000_000
  const NANOS_PER_MINUTE := 60_000_000_000
  const TWO_32 := 0x1_0000_0000
  const MAX_MINUTES := 525600

  type Byte = x: int | 0 <= x < 256

  /** Whole seconds of a reading, rounded down. */
  function Unix(t: Time): int {
    t / NANOS_PER_SECOND
  }

  /** Conversion to uint64. */
  function U64(x: int): nat {
    x % TWO_64
  }

  /** A reading lies in the second it is rounded to; uint64 keeps what fits and drops multiples of 2^64. */
  lemma ClockUnits(t: Time, x: int)
    ensures Unix(t) * 1_000_000_000 <= t < (Unix(t) + 1) * 1_000_000_000
    ensures 0 <= x < 0x1_0000_0000_0000_0000 ==> U64(x) == x
    ensures 0 <= U64(x) < 0x1_0000_0000_0000_0000 && (x - U64(x)) % 0x1_0000_0000_0000_0000 == 0
  {
  }

  // ---- Shift and or -----------------------------------------------------------------------

  function Pow2(k: nat): nat {
    if k == 0 then 1 else 2 * Pow2(k - 1)
  }

  /** Bitwise or. */
  function BitOr(a: nat, b: nat): nat
    decreases a + b
  {
    if a == 0 && b == 0 then 0
    else (if a % 2 == 1 || b % 2 == 1 then 1 else 0) + 2 * BitOr(a / 2, b / 2)
  }

  lemma {:induction false} OrWithZero(a: nat)
    ensures BitOr(a, 0) == a && BitOr(0, a) == a
  {
    if a != 0 {
      OrWithZero(a / 2);
    }
  }

  /** Or-ing a value into bits that are all clear is adding it. */
  lemma {:induction false} OrIntoClearBits(high: nat, low: nat, k: nat)
    requires low < Pow2(k)
    ensures BitOr(high * Pow2(k), low) == BitOr(low, high * Pow2(k)) == high * Pow2(k) + low
  {
    if k == 0 {
      OrWithZero(high);
    } else {
      var shifted := high * Pow2(k - 1);
      assert high * Pow2(k) == 2 * shifted;
      OrIntoClearBits(high, low / 2, k - 1);
    }
  }

  /** binary.BigEndian.Uint32. */
  function BigEndian(nonce: seq<Byte>): nat
    requires |nonce| == 4
  {
    BitOr(BitOr(BitOr(nonce[3], nonce[2] * Pow2(8)), nonce[1] * Pow2(16)), nonce[0] * Pow2(24))
  }

  /** Four digits in base 256. */
  function Base256(a: int, b: int, c: int, d: int): int {
    a * 16777216 + b * 65536 + c * 256 + d
  }

  lemma BigEndianValue(nonce: seq<Byte>)
    requires |nonce| == 4
    ensures BigEndian(nonce) == Base256(nonce[0], nonce[1], nonce[2], nonce[3]) < TWO_32
  {
    Powers();
    OrIntoClearBits(nonce[2], nonce[3], 8);
    OrIntoClearBits(nonce[1], Base256(0, 0, nonce[2], nonce[3]), 16);
    OrIntoClearBits(nonce[0], Base256(0, nonce[1], nonce[2], nonce[3]), 24);
  }

  /** A number in base 256, without its last digit. */
  lemma DropDigit(high: int, digit: Byte)
    ensures (high * 256 + digit) / 256 == high && (high * 256 + digit) % 256 == digit
  {
  }

  /** The four low digits of a number, read back. */
  lemma DigitsOf(high: nat, a: Byte, b: Byte, c: Byte, d: Byte)
    ensures NonceOf(high * TWO_32 + Base256(a, b, c, d)) == [a, b, c, d]
  {
    var x := high * 256 + a;
    var y := x * 256 + b;
    var z := y * 256 + c;
    var s := z * 256 + d;
    assert s == high * TWO_32 + Base256(a, b, c, d);
    DropDigit(high, a);
    DropDigit(x, b);
    DropDigit(y, c);
    DropDigit(z, d);
    NestedQuotients(s);
  }

  lemma NestedQuotients(s: nat)
    ensures s / 65536 == s / 256 / 256 && s / 16777216 == s / 256 / 256 / 256
  {
  }

  lemma Powers()
    ensures Pow2(8) == 256 && Pow2(16) == 65536 && Pow2(24) == 16777216 && Pow2(32) == TWO_32
  {
    assert Pow2(8) == 256;
    assert Pow2(16) == 256 * Pow2(8);
    assert Pow2(24) == 256 * Pow2(16);
    assert Pow2(32) == 256 * Pow2(24);
  }

  // ---- Serial numbers ---------------------------------------------------------------------

  /** The seconds in the high half, the nonce in the low half, all in uint64. */
  function Serial(seconds: int, nonce: seq<Byte>): nat
    requires |nonce| == 4
  {
    BitOr(U64(U64(seconds) * Pow2(32)), BigEndian(nonce))
  }

  function SecondsOf(serial: nat): nat {
    serial / TWO_32
  }

  function NonceOf(serial: nat): seq<Byte> {
    [serial / 16777216 % 256, serial / 65536 % 256, serial / 256 % 256, serial % 256]
  }

  /** Shifting left by 32 in uint64 drops the high half. */
  lemma ShiftDropsHighHalf(seconds: int)
    ensures U64(U64(seconds) * TWO_32) == seconds % TWO_32 * TWO_32
  {
    var x := U64(seconds);
    var q, r := x / TWO_32, x % TWO_32;
    assert r == seconds % TWO_32;
    assert x * TWO_32 == q * TWO_64 + r * TWO_32;
  }

  lemma SerialValue(seconds: int, nonce: seq<Byte>)
    requires |nonce| == 4
    ensures Serial(seconds, nonce) == seconds % TWO_32 * TWO_32 + BigEndian(nonce)
  {
    var low, r := BigEndian(nonce), seconds % TWO_32;
    assert Pow2(32) == TWO_32 && low < Pow2(32) by {
      Powers();
      BigEndianValue(nonce);
    }
    ShiftDropsHighHalf(seconds);
    OrIntoClearBits(r, low, 32);
  }

  lemma FitsIn32(seconds: int)
    ensures seconds % TWO_32 == seconds <==> 0 <= seconds < TWO_32
  {
  }

  lemma Decoded(serial: nat, high: nat, nonce: seq<Byte>)
    requires |nonce| == 4 && high < TWO_32
    requires serial == high * TWO_32 + Base256(nonce[0], nonce[1], nonce[2], nonce[3])
    ensures NonceOf(serial) == nonce && SecondsOf(serial) == high && serial < TWO_64
  {
    DigitsOf(high, nonce[0], nonce[1], nonce[2], nonce[3]);
    assert nonce == [nonce[0], nonce[1], nonce[2], nonce[3]];
  }

  /**
   * The nonce always decodes; the seconds come back modulo 2^32, so they are the issue time exactly while
   * the Unix time fits in 32 bits.
   */
  lemma SerialRoundTrip(seconds: int, nonce: seq<Byte>)
    requires |nonce| == 4
    ensures NonceOf(Serial(seconds, nonce)) == nonce
    ensures SecondsOf(Serial(seconds, nonce)) == seconds % TWO_32
    ensures (SecondsOf(Serial(seconds, nonce)) == seconds) <==> 0 <= seconds < TWO_32
    ensures Serial(seconds, nonce) < TWO_64
  {
    var serial, high := Serial(seconds, nonce), seconds % TWO_32;
    assert serial == high * TWO_32 + Base256(nonce[0], nonce[1], nonce[2], nonce[3]) by {
      SerialValue(seconds, nonce);
      BigEndianValue(nonce);
    }
    Decoded(serial, high, nonce);
    FitsIn32(seconds);
  }

  /** Serials sort by issue second, and two are equal only for the same second and the same nonce. */
  lemma SerialsOrderLikeTime(s1: int, n1: seq<Byte>, s2: int, n2: seq<Byte>)
    requires |n1| == 4 && |n2| == 4 && 0 <= s1 < TWO_32 && 0 <= s2 < TWO_32
    ensures s1 < s2 ==> Serial(s1, n1) < Serial(s2, n2)
    ensures Serial(s1, n1) == Serial(s2, n2) <==> s1 == s2 && n1 == n2
  {
    SerialValue(s1, n1);
    SerialValue(s2, n2);
    SerialRoundTrip(s1, n1);
    SerialRoundTrip(s2, n2);
  }

  // ---- Certificates -----------------------------------------------------------------------

  /** ssh.UserCert; any other type is refused. */
  const USER_CERT := 1

  datatype Certificate = Certificate(keyId: string, serial: nat, certType: nat, principals: seq<string>,
                                     validAfter: nat, validBefore: nat, extensions: set<string>)

  /** What parsing a submitted key yields. */
  datatype Parsed = Unparsable | PlainKey | Cert(cert: Certificate)

  datatype CertError =
    | BadDuration(minutes: int) | NoKey | ParseFailure | NotACertificate | WrongType(got: nat) | NotYetValid | Expired

  datatype Issued = Issued(cert: Certificate) | Refused(error: CertError)

  datatype Verified = Valid(principals: seq<string>) | Invalid(error: CertError)

  const EXTENSIONS := {"permit-X11-forwarding", "permit-agent-forwarding", "permit-port-forwarding",
                       "permit-pty", "permit-user-rc"}

  /** `time.Duration(minutes) * time.Minute` in int64 nanoseconds. */
  function Nanos(minutes: int): int {
    I64(minutes * NANOS_PER_MINUTE)
  }

  /** The clock is read three times: for the serial, for the start and for the end of the window. */
  function Template(user: string, device: string, minutes: int, nonce: seq<Byte>, t1: Time, t2: Time, t3: Time)
    : Certificate
    requires |nonce| == 4
  {
    Certificate(user, Serial(Unix(t1), nonce), USER_CERT, [user, device],
                U64(Unix(t2)), U64(Unix(t3 + Nanos(minutes))), EXTENSIONS)
  }

  /** For every duration the service accepts, the nanosecond product is exact. */
  lemma DurationDoesNotOverflow(minutes: int)
    requires 1 <= minutes <= MAX_MINUTES
    ensures Nanos(minutes) == minutes * 60_000_000_000
  {
  }

  lemma UnixPlusMinutes(t: Time, minutes: int)
    requires 1 <= minutes <= MAX_MINUTES
    ensures Unix(t + Nanos(minutes)) == Unix(t) + 60 * minutes
  {
    DurationDoesNotOverflow(minutes);
    assert t + Nanos(minutes) == (Unix(t) + 60 * minutes) * NANOS_PER_SECOND + t % NANOS_PER_SECOND;
  }

  /** Every field of the template, in numbers. */
  lemma TemplateFields(user: string, device: string, minutes: int, nonce: seq<Byte>, t1: Time, t2: Time, t3: Time)
    requires 1 <= minutes <= 525600 && |nonce| == 4
    ensures
      var cert := Template(user, device, minutes, nonce, t1, t2, t3);
      && cert.serial == Unix(t1) % 4294967296 * 4294967296 + Base256(nonce[0], nonce[1], nonce[2], nonce[3])
      && NonceOf(cert.serial) == nonce
      && (SecondsOf(cert.serial) == Unix(t1) <==> 0 <= Unix(t1) < 4294967296)
      && cert.keyId == user && cert.certType == 1 && cert.principals == [user, device]
      && cert.validAfter == U64(Unix(t2)) && cert.validBefore == U64(Unix(t3) + 60 * minutes)
      && cert.extensions == {"permit-X11-forwarding", "permit-agent-forwarding", "permit-port-forwarding",
                             "permit-pty", "permit-user-rc"}
  {
    SerialValue(Unix(t1), nonce);
    BigEndianValue(nonce);
    SerialRoundTrip(Unix(t1), nonce);
    UnixPlusMinutes(t3, minutes);
  }

  /** Two certificates share a serial number only if they were issued in one second with one nonce. */
  lemma IssuedSerialsCollideIff(a: Certificate, s1: int, n1: seq<Byte>, b: Certificate, s2: int, n2: seq<Byte>)
    requires |n1| == 4 && |n2| == 4 && 0 <= s1 < 4294967296 && 0 <= s2 < 4294967296
    requires a.serial == s1 * 4294967296 + Base256(n1[0], n1[1], n1[2], n1[3])
    requires b.serial == s2 * 4294967296 + Base256(n2[0], n2[1], n2[2], n2[3])
    ensures a.serial == b.serial <==> s1 == s2 && n1 == n2
    ensures s1 < s2 ==> a.serial < b.serial
  {
    Decoded(a.serial, s1, n1);
    Decoded(b.serial, s2, n2);
  }

  function Verify(parsed: Parsed, now: Time): Verified {
    match parsed
    case Unparsable => Invalid(ParseFailure)
    case PlainKey => Invalid(NotACertificate)
    case Cert(cert) =>
      if cert.certType != USER_CERT then Invalid(WrongType(cert.certType))
      else if U64(Unix(now)) < cert.validAfter then Invalid(NotYetValid)
      else if U64(Unix(now)) > cert.validBefore then Invalid(Expired)
      else Valid(cert.principals)
  }

  class CAService {
    var privateKey: array?<Byte>
    var publicKey: array<Byte>

    constructor (privateKey: array?<Byte>, publicKey: array<Byte>)
      ensures this.privateKey == privateKey && this.publicKey == publicKey
    {
      this.privateKey := privateKey;
      this.publicKey := publicKey;
    }

    /** The key does not change; the arguments after `minutes` are the random bytes and the clock readings. */
    method GenerateCertificate(user: string, device: string, minutes: int, nonce: seq<Byte>,
                               t1: Time, t2: Time, t3: Time)
      returns (r: Issued)
      requires |nonce| == 4
      ensures !(1 <= minutes <= MAX_MINUTES) ==> r == Refused(BadDuration(minutes))
      ensures 1 <= minutes <= MAX_MINUTES && privateKey == null ==> r == Refused(NoKey)
      ensures 1 <= minutes <= MAX_MINUTES && privateKey != null ==>
                r == Issued(Template(user, device, minutes, nonce, t1, t2, t3))
      ensures r.Issued? <==> 1 <= minutes <= 525600 && privateKey != null
      ensures r.Issued? ==>
                var cert := r.cert;
                && cert.serial == Unix(t1) % 4294967296 * 4294967296 + Base256(nonce[0], nonce[1], nonce[2], nonce[3])
                && NonceOf(cert.serial) == nonce
                && (SecondsOf(cert.serial) == Unix(t1) <==> 0 <= Unix(t1) < 4294967296)
                && cert.keyId == user && cert.certType == 1 && cert.principals == [user, device]
                && cert.validAfter == U64(Unix(t2)) && cert.validBefore == U64(Unix(t3) + 60 * minutes)
                && cert.extensions == {"permit-X11-forwarding", "permit-agent-forwarding", "permit-port-forwarding",
                                       "permit-pty", "permit-user-rc"}
    {
      if 1 <= minutes <= 525600 {
        TemplateFields(user, device, minutes, nonce, t1, t2, t3);
      }
      if minutes <= 0 || minutes > 525600 {
        return Refused(BadDuration(minutes));
      }
      if privateKey == null {
        return Refused(NoKey);
      }
      var serial := Serial(Unix(t1), nonce);
      return Issued(Certificate(user, serial, USER_CERT, [user, device], U64(Unix(t2)),
                                U64(Unix(t3 + Nanos(minutes))), EXTENSIONS));
    }

    /**
     * The verdict on a submitted key.  Each refusal has its own condition, in the order of the checks; the
     * signature is not looked at.
     */
    method VerifyCertificate(parsed: Parsed, now: Time) returns (r: Verified)
      ensures r == Verify(parsed, now)
      ensures r == Invalid(ParseFailure) <==> parsed == Unparsable
      ensures r == Invalid(NotACertificate) <==> parsed == PlainKey
      ensures parsed.Cert? ==>
                var cert, second := parsed.cert, U64(Unix(now));
                && (r.Valid? <==> cert.certType == 1 && cert.validAfter <= second <= cert.validBefore)
                && (r.Valid? ==> r.principals == cert.principals)
                && (r == Invalid(WrongType(cert.certType)) <==> cert.certType != 1)
                && (r == Invalid(NotYetValid) <==> cert.certType == 1 && second < cert.validAfter)
                && (r == Invalid(Expired) <==>
                    cert.certType == 1 && cert.validAfter <= second && cert.validBefore < second)
    {
      if parsed.Unparsable? {
        return Invalid(ParseFailure);
      }
      if !parsed.Cert? {
        return Invalid(NotACertificate);
      }
      var cert := parsed.cert;
      if cert.certType != USER_CERT {
        return Invalid(WrongType(cert.certType));
      }
      var second := U64(Unix(now));
      if second < cert.validAfter {
        return Invalid(NotYetValid);
      }
      if second > cert.validBefore {
        return Invalid(Expired);
      }
      return Valid(cert.principals);
    }

    /** The caller gets bytes of its own: writing to them cannot reach the service. */
    method GetPublicKey() returns (result: array<Byte>)
      ensures fresh(result) && result[..] == publicKey[..]
    {
      result := new Byte[publicKey.Length];
      for i := 0 to publicKey.Length
        invariant result[..i] == publicKey[..i]
      {
        result[i] := publicKey[i];
      }
    }
  }

  /** A reading whose seconds, with a year to spare, fit in int64: from 1970 on. */
  predicate Representable(t: Time) {
    0 <= t && Unix(t) + 60 * MAX_MINUTES < TWO_63
  }

  lemma UsualSeconds(t: Time)
    requires Representable(t)
    ensures U64(Unix(t)) == Unix(t)
  {
  }

  /** For representable readings nothing wraps. */
  lemma TemplateWindow(user: string, device: string, minutes: int, nonce: seq<Byte>, t1: Time, t2: Time, t3: Time)
    requires 1 <= minutes <= MAX_MINUTES && |nonce| == 4 && Representable(t2) && Representable(t3)
    ensures
      var cert := Template(user, device, minutes, nonce, t1, t2, t3);
      cert.validAfter == Unix(t2) && cert.validBefore == Unix(t3) + 60 * minutes
  {
    UnixPlusMinutes(t3, minutes);
  }

  /**
   * A certificate is accepted at exactly the seconds from the one it was issued in up to and including
   * the one its duration ends in, and yields the user and the device.
   */
  lemma IssueThenVerify(user: string, device: string, minutes: int, nonce: seq<Byte>,
                        t1: Time, t2: Time, t3: Time, now: Time)
    requires 1 <= minutes <= MAX_MINUTES && |nonce| == 4
    requires Representable(t2) && Representable(t3) && Representable(now)
    ensures
      var verdict := Verify(Cert(Template(user, device, minutes, nonce, t1, t2, t3)), now);
      && (verdict.Valid? <==> Unix(t2) <= Unix(now) <= Unix(t3) + 60 * minutes)
      && (verdict.Valid? ==> verdict.principals == [user, device])
      && (verdict == Invalid(NotYetValid) <==> Unix(now) < Unix(t2))
  {
    TemplateWindow(user, device, minutes, nonce, t1, t2, t3);
    UsualSeconds(now);
  }

  /** Valid before, as OpenSSH's PROTOCOL.certkeys defines it, excludes the end. */
  predicate OpenSshAccepts(cert: Certificate, now: Time) {
    cert.validAfter <= U64(Unix(now)) < cert.validBefore
  }

  /** The service accepts one second more than OpenSSH: the one that `validBefore` names. */
  lemma OneSecondMoreThanOpenSsh(cert: Certificate, now: Time)
    requires cert.certType == USER_CERT && cert.validAfter <= cert.validBefore
    ensures OpenSshAccepts(cert, now) ==> Verify(Cert(cert), now).Valid?
    ensures Verify(Cert(cert), now).Valid? && !OpenSshAccepts(cert, now) <==> U64(Unix(now)) == cert.validBefore
  {
  }

  // ---- The issue endpoint -----------------------------------------------------------------

  datatype IssueReply =
    | IssueOk(cert: Certificate, keyPem: string, expiresAt: int, sshPort: int, guiAvailable: bool,
              vncPort: Option<int>, x11Display: Option<string>)
    | IssueError(code: int)

  /** The reported expiry comes from a fourth reading of the clock, made after the certificate is built. */
  method IssueCert(ca: CAService, user: string, device: string, requestedMinutes: int, enableGui: bool,
                   nonce: seq<Byte>, t1: Time, t2: Time, t3: Time, t4: Time)
    returns (r: IssueReply)
    requires |nonce| == 4
    ensures device == "" ==> r == IssueError(400)
    ensures device != "" && user == "" ==> r == IssueError(401)
    ensures device != "" && user != "" ==>
              if 0 <= requestedMinutes <= 525600 && ca.privateKey != null
              then var minutes := if requestedMinutes == 0 then 60 else requestedMinutes;
                   && r.IssueOk?
                   && r.cert == Template(user, device, minutes, nonce, t1, t2, t3)
                   && r.expiresAt == Unix(t4) + 60 * minutes
                   && r.keyPem == "" && r.sshPort == 2222 && r.x11Display == None
                   && r.guiAvailable == enableGui
                   && r.vncPort == (if enableGui then Some(5900) else None)
              else r == IssueError(500)
  {
    if device == "" {
      return IssueError(400);
    }
    var minutes := requestedMinutes;
    if minutes == 0 {
      minutes := 60;
    }
    if user == "" {
      return IssueError(401);
    }
    var issued := ca.GenerateCertificate(user, device, minutes, nonce, t1, t2, t3);
    if issued.Refused? {
      return IssueError(500);
    }
    var guiAvailable, vncPort := false, None;
    if enableGui {
      guiAvailable := true;
      vncPort := Some(5900);
    }
    UnixPlusMinutes(t4, minutes);
    return IssueOk(issued.cert, "", Unix(t4 + Nanos(minutes)), 2222, guiAvailable, vncPort, None);
  }

  /**
   * The expiry reported to the client is never before the certificate's own, and the certificate is still
   * accepted at the reported second exactly when the two readings fell in the same second.
   */
  lemma ReportedExpiry(user: string, device: string, minutes: int, nonce: seq<Byte>,
                       t1: Time, t2: Time, t3: Time, t4: Time)
    requires 1 <= minutes <= MAX_MINUTES && |nonce| == 4 && t2 <= t3 <= t4
    requires Representable(t2) && Representable(t3) && Representable(t4 + Nanos(minutes))
    ensures
      var cert := Template(user, device, minutes, nonce, t1, t2, t3);
      var end := t4 + Nanos(minutes);
      && cert.validBefore <= Unix(end)
      && (Verify(Cert(cert), end).Valid? <==> Unix(t3) == Unix(t4))
  {
    UnixPlusMinutes(t3, minutes);
    UnixPlusMinutes(t4, minutes);
    IssueThenVerify(user, device, minutes, nonce, t1, t2, t3, t4 + Nanos(minutes));
  }

  /**
   * The two readings can differ: with the third just before a second ends and the fourth a nanosecond
   * later, the reported expiry is a second in which the certificate is refused as expired.
   */
  lemma ReportedExpiryCanBeRefused(user: string, device: string, nonce: seq<Byte>)
    requires |nonce| == 4
    ensures
      var t3 := 1_700_000_000_999_999_999;
      var t4 := t3 + 1;
      Verify(Cert(Template(user, device, 60, nonce, t3, t3, t3)), t4 + Nanos(60)) == Invalid(Expired)
  {
    var t3 := 1_700_000_000_999_999_999;
    ReportedExpiry(user, device, 60, nonce, t3, t3, t3, t3 + 1);
    IssueThenVerify(user, device, 60, nonce, t3, t3, t3, t3 + 1 + Nanos(60));
  }
}
