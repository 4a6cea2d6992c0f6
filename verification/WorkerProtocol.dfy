/**
 The fixed binary frames of the native worker: the two request kinds, their parsers,
 and the two response frames. Offsets are those of the wire; integers are little-endian.
 */
module WorkerProtocol {
  import opened Common
  import opened Buffers
  import Utf8
  import opened WindowsPath

  const PROTOCOL_REVISION := 3
  const MAXIMUM_REQUEST_BYTES := 65536
  const MAXIMUM_PATH_BYTES := 4096
  const REQUEST_HEADER_BYTES := 60
  const HOME_REQUEST_BYTES := 76
  const REQUEST_MAGIC: seq<byte> := [67, 82, 68, 68, 80, 65, 48, 51]        // CRDDPA03
  const RESPONSE_MAGIC: seq<byte> := [67, 82, 68, 68, 80, 82, 48, 51]       // CRDDPR03
  const HOME_REQUEST_MAGIC: seq<byte> := [67, 82, 68, 68, 80, 72, 48, 50]   // CRDDPH02
  const HOME_RESPONSE_MAGIC: seq<byte> := [67, 82, 68, 68, 72, 79, 48, 50]  // CRDDHO02
  const HOME_FAMILY: seq<byte> := [67, 82, 68, 68, 80, 72]                  // CRDDPH

  type u16 = n: int | 0 <= n < 0x1_0000
  type u32 = n: int | 0 <= n < 0x1_0000_0000

  function Le16(n: u16): (r: seq<byte>)
    ensures |r| == 2
  {
    [n % 256, n / 256]
  }

  function Le32(n: u32): (r: seq<byte>)
    ensures |r| == 4
  {
    [n % 256, n / 256 % 256, n / 65536 % 256, n / 16777216]
  }

  function FromLe16(b: seq<byte>): u16
    requires |b| == 2
  {
    b[0] as int + 256 * (b[1] as int)
  }

  function FromLe32(b: seq<byte>): u32
    requires |b| == 4
  {
    b[0] as int + 256 * (b[1] as int) + 65536 * (b[2] as int) + 16777216 * (b[3] as int)
  }

  lemma Le16RoundTrip(n: u16, b: seq<byte>)
    requires |b| == 2
    ensures FromLe16(Le16(n)) == n && Le16(FromLe16(b)) == b
  {
  }

  /** Four bytes of a word, taken apart again. */
  lemma FourBytes(p: byte, q: byte, r: byte, t: byte)
    ensures var v := p as int + 256 * (q as int) + 65536 * (r as int) + 16777216 * (t as int);
            v % 256 == p && v / 256 % 256 == q && v / 65536 % 256 == r && v / 16777216 == t
  {
    var v := p as int + 256 * (q as int) + 65536 * (r as int) + 16777216 * (t as int);
    var high, middle := q as int + 256 * (r as int) + 65536 * (t as int), r as int + 256 * (t as int);
    assert v == high * 256 + p && high == middle * 256 + q;
    assert v / 256 == high && v % 256 == p && high % 256 == q;
    assert v / 65536 == middle by { assert v == middle * 65536 + (q as int * 256 + p); }
    assert v / 16777216 == t by { assert v == t as int * 16777216 + (r as int * 65536 + q as int * 256 + p); }
  }

  lemma Le32RoundTrip(n: u32, b: seq<byte>)
    requires |b| == 4
    ensures FromLe32(Le32(n)) == n && Le32(FromLe32(b)) == b
  {
    assert n / 65536 == n / 256 / 256 && n / 16777216 == n / 65536 / 256;
    FourBytes(b[0], b[1], b[2], b[3]);
  }

  // ------------------------------------------------------------ root requests

  datatype RootRole = Runtime | Authority

  function RoleCode(r: RootRole): byte { if r == Runtime then 1 else 2 }

  function ParseRole(b: byte): Option<RootRole> {
    if b == 1 then Some(Runtime) else if b == 2 then Some(Authority) else None
  }

  datatype FileIdentity = FileIdentity(volumeSerialNumber: u32, fileIndexHigh: u32, fileIndexLow: u32)

  datatype Request = Request(role: RootRole, nonce: seq<byte>, identity: FileIdentity, path: string)

  /** The requests that have a frame. */
  predicate WellFormed(r: Request) {
    |r.nonce| == 32 && 1 <= |Utf8.Encode(r.path)| <= MAXIMUM_PATH_BYTES && Supported(r.path)
  }

  function RequestHeader(r: Request, pathLength: u32): (h: seq<byte>)
    requires |r.nonce| == 32
    ensures |h| == REQUEST_HEADER_BYTES
  {
    REQUEST_MAGIC + Le16(PROTOCOL_REVISION) + [1, RoleCode(r.role)] + r.nonce +
    Le32(r.identity.volumeSerialNumber) + Le32(r.identity.fileIndexHigh) + Le32(r.identity.fileIndexLow) +
    Le32(pathLength)
  }

  function EncodeRequest(r: Request): (b: seq<byte>)
    requires WellFormed(r)
    ensures |b| == REQUEST_HEADER_BYTES + |Utf8.Encode(r.path)|
  {
    RequestHeader(r, |Utf8.Encode(r.path)|) + Utf8.Encode(r.path)
  }

  /** parse_request. */
  function ParseRequest(b: seq<byte>): Option<Request> {
    if |b| < REQUEST_HEADER_BYTES || |b| > MAXIMUM_REQUEST_BYTES || b[..8] != REQUEST_MAGIC ||
       FromLe16(b[8..10]) != PROTOCOL_REVISION || b[10] != 1 then None
    else
      var role := ParseRole(b[11]);
      var pathLength := FromLe32(b[56..60]);
      if role.None? || pathLength == 0 || pathLength > MAXIMUM_PATH_BYTES || |b| != REQUEST_HEADER_BYTES + pathLength then None
      else
        var path := Utf8.Decode(b[REQUEST_HEADER_BYTES..]);
        if path.None? || '\0' in path.value || !Supported(path.value) then None
        else
          Some(Request(role.value, b[12..44],
                       FileIdentity(FromLe32(b[44..48]), FromLe32(b[48..52]), FromLe32(b[52..56])), path.value))
  }

  /** Every header field sits at its offset. */
  lemma HeaderFields(r: Request, n: u32, b: seq<byte>)
    requires |r.nonce| == 32 && RequestHeader(r, n) <= b
    ensures b[..8] == REQUEST_MAGIC && b[8..10] == Le16(PROTOCOL_REVISION) && b[10] == 1 && b[11] == RoleCode(r.role)
    ensures b[12..44] == r.nonce
    ensures b[44..48] == Le32(r.identity.volumeSerialNumber) && b[48..52] == Le32(r.identity.fileIndexHigh)
    ensures b[52..56] == Le32(r.identity.fileIndexLow) && b[56..60] == Le32(n)
  {
    var h := RequestHeader(r, n);
    assert b[..60] == h;
    assert b[..8] == h[..8] && b[8..10] == h[8..10] && b[12..44] == h[12..44];
    assert b[44..48] == h[44..48] && b[48..52] == h[48..52] && b[52..56] == h[52..56] && b[56..60] == h[56..60];
  }

  /** Parsing undoes encoding. */
  lemma ParseEncodeRequest(r: Request)
    requires WellFormed(r)
    ensures ParseRequest(EncodeRequest(r)) == Some(r)
  {
    var text := Utf8.Encode(r.path);
    var b := EncodeRequest(r);
    HeaderFields(r, |text|, b);
    assert b[REQUEST_HEADER_BYTES..] == text;
    Utf8.DecodeEncode(r.path);
    Utf8.AsciiByteIsChar(r.path, '\0');
    Le16RoundTrip(PROTOCOL_REVISION, Le16(PROTOCOL_REVISION));
    Le32RoundTrip(|text|, b[56..60]);
    Le32RoundTrip(r.identity.volumeSerialNumber, b[44..48]);
    Le32RoundTrip(r.identity.fileIndexHigh, b[48..52]);
    Le32RoundTrip(r.identity.fileIndexLow, b[52..56]);
  }

  /** A byte string of at least header length is its fields put side by side. */
  lemma TileRequest(b: seq<byte>)
    requires |b| >= 60
    ensures b == b[..8] + b[8..10] + [b[10], b[11]] + b[12..44] + b[44..48] + b[48..52] + b[52..56] + b[56..60] + b[60..]
  {
  }

  lemma AcceptedFields(b: seq<byte>)
    requires ParseRequest(b).Some?
    ensures var r := ParseRequest(b).value;
            && |b| >= 60 && b[..8] == REQUEST_MAGIC && b[8..10] == Le16(PROTOCOL_REVISION)
            && b[10] == 1 && b[11] == RoleCode(r.role) && b[12..44] == r.nonce
            && b[44..48] == Le32(r.identity.volumeSerialNumber) && b[48..52] == Le32(r.identity.fileIndexHigh)
            && b[52..56] == Le32(r.identity.fileIndexLow)
            && b[60..] == Utf8.Encode(r.path) && b[56..60] == Le32(|Utf8.Encode(r.path)|)
            && WellFormed(r)
  {
    hide Utf8.Encode, Utf8.Decode, Supported, Le16, Le32, FromLe16, FromLe32;
    Utf8.EncodeDecode(b[REQUEST_HEADER_BYTES..]);
    Le16RoundTrip(PROTOCOL_REVISION, b[8..10]);
    Le32RoundTrip(0, b[44..48]);
    Le32RoundTrip(0, b[48..52]);
    Le32RoundTrip(0, b[52..56]);
    Le32RoundTrip(0, b[56..60]);
  }

  /** What the parser accepts is the encoding of what it returns. */
  lemma EncodeParseRequest(b: seq<byte>)
    requires ParseRequest(b).Some?
    ensures WellFormed(ParseRequest(b).value) && EncodeRequest(ParseRequest(b).value) == b
  {
    AcceptedFields(b);
    TileRequest(b);
  }

  // ------------------------------------------------------------ provider-home requests

  datatype Provider = Codex | Claude | CandidateStore | RuntimeState

  function ProviderCode(p: Provider): byte {
    match p case Codex => 1 case Claude => 2 case CandidateStore => 3 case RuntimeState => 4
  }

  function ParseProvider(b: byte): Option<Provider> {
    if b == 1 then Some(Codex) else if b == 2 then Some(Claude)
    else if b == 3 then Some(CandidateStore) else if b == 4 then Some(RuntimeState) else None
  }

  datatype HomeRequest = HomeRequest(provider: Provider, initializeIfMissing: bool, nonce: seq<byte>, mountSourceHash: seq<byte>)

  predicate NonZero(hash: seq<byte>) {
    exists k :: 0 <= k < |hash| && hash[k] != 0
  }

  predicate WellFormedHome(r: HomeRequest) {
    && |r.nonce| == 32 && |r.mountSourceHash| == 32
    && NonZero(r.mountSourceHash)
    && (r.initializeIfMissing ==> r.provider == CandidateStore || r.provider == RuntimeState)
  }

  function EncodeHomeRequest(r: HomeRequest): (b: seq<byte>)
    requires |r.nonce| == 32 && |r.mountSourceHash| == 32
    ensures |b| == HOME_REQUEST_BYTES
  {
    HOME_REQUEST_MAGIC + Le16(PROTOCOL_REVISION) +
    [ProviderCode(r.provider), if r.initializeIfMissing then 1 else 0] + r.nonce + r.mountSourceHash
  }

  /** parse_provider_home_request. */
  function ParseHomeRequest(b: seq<byte>): Option<HomeRequest> {
    if |b| != HOME_REQUEST_BYTES || b[..8] != HOME_REQUEST_MAGIC || FromLe16(b[8..10]) != PROTOCOL_REVISION then None
    else
      var provider := ParseProvider(b[10]);
      if provider.None? || b[11] > 1 then None
      else
        var r := HomeRequest(provider.value, b[11] == 1, b[12..44], b[44..76]);
        if NonZero(r.mountSourceHash) &&
           (!r.initializeIfMissing || r.provider == CandidateStore || r.provider == RuntimeState) then Some(r)
        else None
  }

  lemma HomeRequestFields(r: HomeRequest)
    requires |r.nonce| == 32 && |r.mountSourceHash| == 32
    ensures var b := EncodeHomeRequest(r);
            && b[..8] == HOME_REQUEST_MAGIC && b[8..10] == Le16(PROTOCOL_REVISION) && b[10] == ProviderCode(r.provider)
            && b[11] == (if r.initializeIfMissing then 1 else 0) && b[12..44] == r.nonce && b[44..76] == r.mountSourceHash
  {
    var codes := [ProviderCode(r.provider), if r.initializeIfMissing then 1 else 0];
    var head := HOME_REQUEST_MAGIC + Le16(PROTOCOL_REVISION) + codes;
    var b := EncodeHomeRequest(r);
    FieldAt(head, r.nonce, r.mountSourceHash);
    FieldAt(head + r.nonce, r.mountSourceHash, []);
    assert b == (head + r.nonce) + r.mountSourceHash + [];
    FieldAt(HOME_REQUEST_MAGIC, Le16(PROTOCOL_REVISION), codes);
    SliceOfPrefix(b, 12, 0, 8);
    SliceOfPrefix(b, 12, 8, 10);
    assert b[..12] == head;
    assert b[10] == head[10] && b[11] == head[11];
  }

  lemma ParseEncodeHomeRequest(r: HomeRequest)
    requires WellFormedHome(r)
    ensures ParseHomeRequest(EncodeHomeRequest(r)) == Some(r)
  {
    hide EncodeHomeRequest;
    HomeRequestFields(r);
    Le16RoundTrip(PROTOCOL_REVISION, EncodeHomeRequest(r)[8..10]);
  }

  lemma EncodeParseHomeRequest(b: seq<byte>)
    requires ParseHomeRequest(b).Some?
    ensures WellFormedHome(ParseHomeRequest(b).value) && EncodeHomeRequest(ParseHomeRequest(b).value) == b
  {
    Le16RoundTrip(PROTOCOL_REVISION, b[8..10]);
    assert b == b[..8] + b[8..10] + [b[10], b[11]] + b[12..44] + b[44..76];
  }

  /** No byte string is accepted as both kinds. */
  lemma KindsDisjoint(b: seq<byte>)
    ensures !(ParseRequest(b).Some? && ParseHomeRequest(b).Some?)
  {
    assert REQUEST_MAGIC[5] != HOME_REQUEST_MAGIC[5];
  }

  // ------------------------------------------------------------ responses

  datatype Reason = UnsupportedPlatform | InvalidRequest | RootOpenFailed | RootIdentityMismatch | RootReparseRejected
                  | SecurityDescriptorUnavailable | ProcessTokenUnavailable | AccessCheckFailed | ObservationCandidate

  function ReasonCode(r: Reason): u16 {
    match r
    case UnsupportedPlatform => 1 case InvalidRequest => 2 case RootOpenFailed => 3 case RootIdentityMismatch => 4
    case RootReparseRejected => 5 case SecurityDescriptorUnavailable => 6 case ProcessTokenUnavailable => 7
    case AccessCheckFailed => 8 case ObservationCandidate => 100
  }

  datatype Response = Response(role: RootRole, nonce: seq<byte>, isCandidate: bool, reason: Reason, accessMask: u32,
                               principalHash: seq<byte>, principalFlags: u32)

  predicate WellFormedResponse(r: Response) {
    |r.nonce| == 32 && |r.principalHash| == 32
  }

  /** The 86 bytes of a response as consecutive fields. */
  function ResponseFrame(r: Response): (b: seq<byte>)
    requires WellFormedResponse(r)
    ensures |b| == 86
  {
    RESPONSE_MAGIC + Le16(PROTOCOL_REVISION) + [RoleCode(r.role), if r.isCandidate then 1 else 0] + r.nonce +
    Le16(ReasonCode(r.reason)) + Le32(r.accessMask) + r.principalHash + Le32(r.principalFlags)
  }

  datatype HomeReason = HomeUnsupportedPlatform | HomeInvalidRequest | PrincipalUnavailable | PrincipalNotSelectedLocalUser
                      | KnownFolderUnavailable | HomeUnavailable | HomeReparseRejected | HomeNotFixedVolume
                      | HomeIdentityChanged | HomeSecurityUnavailable | HomeOwnerMismatch | HomeDaclNotProtected
                      | HomeDaclNotRestricted | HomeAccessInsufficient | MountSourceMismatch | HomeObservationCandidate

  function HomeReasonCode(r: HomeReason): u16 {
    match r
    case HomeUnsupportedPlatform => 1 case HomeInvalidRequest => 2 case PrincipalUnavailable => 3
    case PrincipalNotSelectedLocalUser => 4 case KnownFolderUnavailable => 5 case HomeUnavailable => 6
    case HomeReparseRejected => 7 case HomeNotFixedVolume => 8 case HomeIdentityChanged => 9
    case HomeSecurityUnavailable => 10 case HomeOwnerMismatch => 11 case HomeDaclNotProtected => 12
    case HomeDaclNotRestricted => 13 case HomeAccessInsufficient => 14 case MountSourceMismatch => 15
    case HomeObservationCandidate => 100
  }

  datatype HomeResponse = HomeResponse(provider: Provider, nonce: seq<byte>, isCandidate: bool, reason: HomeReason,
                                       principalFlags: u32, homeFlags: u32, identityHash: seq<byte>,
                                       protectionHash: seq<byte>, bindingHash: seq<byte>, logicalHash: seq<byte>)

  predicate WellFormedHomeResponse(r: HomeResponse) {
    |r.nonce| == 32 && |r.identityHash| == 32 && |r.protectionHash| == 32 && |r.bindingHash| == 32 && |r.logicalHash| == 32
  }

  /** The 182 bytes of a provider-home response as consecutive fields. */
  function HomeResponseFrame(r: HomeResponse): (b: seq<byte>)
    requires WellFormedHomeResponse(r)
    ensures |b| == 182
  {
    HOME_RESPONSE_MAGIC + Le16(PROTOCOL_REVISION) + [ProviderCode(r.provider), if r.isCandidate then 1 else 0] + r.nonce +
    Le16(HomeReasonCode(r.reason)) + Le32(r.principalFlags) + Le32(r.homeFlags) +
    r.identityHash + r.protectionHash + r.bindingHash + r.logicalHash
  }

  /** Equal frames come from equal responses: every field can be read back at its offset. */
  lemma ResponseInjective(r: Response, q: Response)
    requires WellFormedResponse(r) && WellFormedResponse(q) && ResponseFrame(r) == ResponseFrame(q)
    ensures r == q
  {
    ResponseFields(r);
    ResponseFields(q);
  }

  lemma ResponseFields(r: Response)
    requires WellFormedResponse(r)
    ensures var b := ResponseFrame(r);
            && b[10] == RoleCode(r.role) && b[11] == (if r.isCandidate then 1 else 0) && b[12..44] == r.nonce
            && FromLe16(b[44..46]) == ReasonCode(r.reason) && FromLe32(b[46..50]) == r.accessMask
            && b[50..82] == r.principalHash && FromLe32(b[82..86]) == r.principalFlags
  {
    var b := ResponseFrame(r);
    assert b[44..46] == Le16(ReasonCode(r.reason)) && b[46..50] == Le32(r.accessMask) && b[82..86] == Le32(r.principalFlags);
    Le16RoundTrip(ReasonCode(r.reason), b[44..46]);
    Le32RoundTrip(r.accessMask, b[46..50]);
    Le32RoundTrip(r.principalFlags, b[82..86]);
  }

  lemma HomeResponseInjective(r: HomeResponse, q: HomeResponse)
    requires WellFormedHomeResponse(r) && WellFormedHomeResponse(q) && HomeResponseFrame(r) == HomeResponseFrame(q)
    ensures r == q
  {
    HomeResponseFields(r);
    HomeResponseFields(q);
  }

  lemma HomeResponseFields(r: HomeResponse)
    requires WellFormedHomeResponse(r)
    ensures var b := HomeResponseFrame(r);
            && b[10] == ProviderCode(r.provider) && b[11] == (if r.isCandidate then 1 else 0) && b[12..44] == r.nonce
            && FromLe16(b[44..46]) == HomeReasonCode(r.reason)
            && FromLe32(b[46..50]) == r.principalFlags && FromLe32(b[50..54]) == r.homeFlags
            && b[54..86] == r.identityHash && b[86..118] == r.protectionHash
            && b[118..150] == r.bindingHash && b[150..182] == r.logicalHash
  {
    var b := HomeResponseFrame(r);
    HomeResponseCodes(r);
    HomeResponseHashes(r);
    Le16RoundTrip(HomeReasonCode(r.reason), b[44..46]);
    Le32RoundTrip(r.principalFlags, b[46..50]);
    Le32RoundTrip(r.homeFlags, b[50..54]);
  }

  /** The 54 bytes before the four hashes. */
  function HomeResponseHead(r: HomeResponse): (b: seq<byte>)
    requires |r.nonce| == 32
    ensures |b| == 54
  {
    ResponseHead(HOME_RESPONSE_MAGIC, ProviderCode(r.provider), r.isCandidate, r.nonce) +
    Le16(HomeReasonCode(r.reason)) + Le32(r.principalFlags) + Le32(r.homeFlags)
  }

  lemma HomeResponseCodes(r: HomeResponse)
    requires WellFormedHomeResponse(r)
    ensures var b := HomeResponseFrame(r);
            && b[10] == ProviderCode(r.provider) && b[11] == (if r.isCandidate then 1 else 0) && b[12..44] == r.nonce
            && b[44..46] == Le16(HomeReasonCode(r.reason)) && b[46..50] == Le32(r.principalFlags) && b[50..54] == Le32(r.homeFlags)
  {
    var b := HomeResponseFrame(r);
    assert b[..54] == HomeResponseHead(r) by { HomeResponseParts(r); }
    hide HomeResponseFrame;
    HomeHeadSlices(r);
    SliceOfPrefix(b, 54, 12, 44);
    SliceOfPrefix(b, 54, 44, 46);
    SliceOfPrefix(b, 54, 46, 50);
    SliceOfPrefix(b, 54, 50, 54);
    assert b[10] == b[..54][10] && b[11] == b[..54][11];
  }

  lemma HomeHeadSlices(r: HomeResponse)
    requires |r.nonce| == 32
    ensures var h := HomeResponseHead(r);
            h[10] == ProviderCode(r.provider) && h[11] == (if r.isCandidate then 1 else 0) && h[12..44] == r.nonce &&
            h[44..46] == Le16(HomeReasonCode(r.reason)) && h[46..50] == Le32(r.principalFlags) && h[50..54] == Le32(r.homeFlags)
  {
    hide Le16, Le32, HomeReasonCode;
    var h := HomeResponseHead(r);
    var start := HOME_RESPONSE_MAGIC + Le16(PROTOCOL_REVISION) + [ProviderCode(r.provider), if r.isCandidate then 1 else 0];
    var one := start + r.nonce;
    var two := one + Le16(HomeReasonCode(r.reason));
    var three := two + Le32(r.principalFlags);
    FieldAt(start, r.nonce, []);
    FieldAt(one, Le16(HomeReasonCode(r.reason)), []);
    FieldAt(two, Le32(r.principalFlags), []);
    FieldAt(three, Le32(r.homeFlags), []);
    assert h == three + Le32(r.homeFlags);
    assert h[..50] == three && h[..46] == two && h[..44] == one && h[..12] == start;
    SliceOfPrefix(h, 50, 46, 50);
    SliceOfPrefix(h, 46, 44, 46);
    SliceOfPrefix(h, 44, 12, 44);
    assert h[10] == start[10] && h[11] == start[11];
  }

  lemma HomeResponseParts(r: HomeResponse)
    requires WellFormedHomeResponse(r)
    ensures HomeResponseFrame(r) == HomeResponseHead(r) + r.identityHash + r.protectionHash + r.bindingHash + r.logicalHash
  {
    hide Le16, Le32, HomeReasonCode;
  }

  lemma HomeResponseHashes(r: HomeResponse)
    requires WellFormedHomeResponse(r)
    ensures var b := HomeResponseFrame(r);
            b[54..86] == r.identityHash && b[86..118] == r.protectionHash && b[118..150] == r.bindingHash && b[150..182] == r.logicalHash
  {
    HomeResponseParts(r);
    hide HomeResponseFrame, HomeResponseHead;
    var b := HomeResponseFrame(r);
    var one := HomeResponseHead(r) + r.identityHash;
    var two := one + r.protectionHash;
    var three := two + r.bindingHash;
    FieldAt(HomeResponseHead(r), r.identityHash, []);
    FieldAt(one, r.protectionHash, []);
    FieldAt(two, r.bindingHash, []);
    FieldAt(three, r.logicalHash, []);
    assert b[..150] == three && b[..118] == two && b[..86] == one;
    SliceOfPrefix(b, 150, 118, 150);
    SliceOfPrefix(b, 118, 86, 118);
    SliceOfPrefix(b, 86, 54, 86);
  }

  /** The 44 bytes both response kinds begin with. */
  function ResponseHead(magic: seq<byte>, subject: byte, isCandidate: bool, nonce: seq<byte>): (b: seq<byte>)
    requires |magic| == 8 && |nonce| == 32
    ensures |b| == 44
  {
    magic + Le16(PROTOCOL_REVISION) + [subject, if isCandidate then 1 else 0] + nonce
  }

  method FillHead(bytes: array<byte>, magic: seq<byte>, subject: byte, isCandidate: bool, nonce: seq<byte>)
    requires |magic| == 8 && |nonce| == 32 && bytes.Length >= 44
    modifies bytes
    ensures bytes[..44] == ResponseHead(magic, subject, isCandidate, nonce)
  {
    Append(bytes, 0, magic);
    Append(bytes, 8, Le16(PROTOCOL_REVISION));
    ghost var start := bytes[..10];
    bytes[10] := subject;
    bytes[11] := if isCandidate then 1 else 0;
    assert bytes[..10] == start;
    assert bytes[..12] == bytes[..10] + [subject, if isCandidate then 1 else 0];
    Append(bytes, 12, nonce);
  }

  /** encode_response: slice copies at fixed offsets fill all 86 bytes. */
  method EncodeResponse(r: Response) returns (bytes: array<byte>)
    requires WellFormedResponse(r)
    ensures fresh(bytes) && bytes[..] == ResponseFrame(r)
  {
    bytes := new byte[86](_ => 0);
    FillHead(bytes, RESPONSE_MAGIC, RoleCode(r.role), r.isCandidate, r.nonce);
    Append(bytes, 44, Le16(ReasonCode(r.reason)));
    Append(bytes, 46, Le32(r.accessMask));
    Append(bytes, 50, r.principalHash);
    Append(bytes, 82, Le32(r.principalFlags));
    assert bytes[..] == bytes[..86];
  }

  /** encode_provider_home_response: slice copies at fixed offsets fill all 182 bytes. */
  method EncodeHomeResponse(r: HomeResponse) returns (bytes: array<byte>)
    requires WellFormedHomeResponse(r)
    ensures fresh(bytes) && bytes[..] == HomeResponseFrame(r)
  {
    bytes := new byte[182](_ => 0);
    FillHead(bytes, HOME_RESPONSE_MAGIC, ProviderCode(r.provider), r.isCandidate, r.nonce);
    Append(bytes, 44, Le16(HomeReasonCode(r.reason)));
    Append(bytes, 46, Le32(r.principalFlags));
    Append(bytes, 50, Le32(r.homeFlags));
    Append(bytes, 54, r.identityHash);
    Append(bytes, 86, r.protectionHash);
    Append(bytes, 118, r.bindingHash);
    Append(bytes, 150, r.logicalHash);
    assert bytes[..] == bytes[..182];
  }
}
