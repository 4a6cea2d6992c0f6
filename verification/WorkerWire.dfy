/** The frames of the worker, told byte by byte: which byte strings are requests, and of what. */
module WorkerWire {
  import opened Common
  import Utf8
  import opened WindowsPath
  import opened WorkerProtocol
  import opened WorkerEntry

  /** The bytes of an ASCII text. */
  predicate Spells(b: seq<byte>, text: string) {
    |b| == |text| && forall i :: 0 <= i < |b| ==> b[i] == text[i] as int
  }

  /** The four bytes at a place, the least significant one first. */
  function Word(b: seq<byte>, i: nat): nat
    requires i + 4 <= |b|
  {
    b[i] as int + 256 * (b[i + 1] as int + 256 * (b[i + 2] as int + 256 * (b[i + 3] as int)))
  }

  /** The bytes before the subject of a request: magic, revision 3. */
  predicate Begins(b: seq<byte>, magic: string) {
    |b| >= 12 && Spells(b[..8], magic) && b[8] == 3 && b[9] == 0
  }

  /** A root request, field by field: 60 bytes of header and up to 4096 bytes of path. */
  ghost predicate RequestBytes(b: seq<byte>, r: Request) {
    && 61 <= |b| <= 4156 && Begins(b, "CRDDPA03") && b[10] == 1
    && b[11] == (match r.role case Runtime => 1 case Authority => 2)
    && r.nonce == b[12..44]
    && r.identity == FileIdentity(Word(b, 44), Word(b, 48), Word(b, 52))
    && Word(b, 56) == |b| - 60 && Utf8.Encode(r.path) == b[60..]
    && exists segments :: DriveWithSegments(r.path, segments)
  }

  /** A provider-home request: 76 bytes, a hash that is not zero, and initialisation only for the two stores. */
  predicate HomeBytes(b: seq<byte>, r: HomeRequest) {
    && |b| == 76 && Begins(b, "CRDDPH02")
    && b[10] == (match r.provider case Codex => 1 case Claude => 2 case CandidateStore => 3 case RuntimeState => 4)
    && b[11] == (if r.initializeIfMissing then 1 else 0) && r.nonce == b[12..44] && r.mountSourceHash == b[44..76]
    && (exists i :: 44 <= i < 76 && b[i] != 0)
    && (r.initializeIfMissing ==> r.provider == CandidateStore || r.provider == RuntimeState)
  }

  // ------------------------------------------------------------ fields

  lemma WordAt(b: seq<byte>, i: nat)
    requires i + 4 <= |b|
    ensures FromLe32(b[i..i + 4]) == Word(b, i)
  {
    var w := b[i..i + 4];
    assert w[0] == b[i] && w[1] == b[i + 1] && w[2] == b[i + 2] && w[3] == b[i + 3];
  }

  lemma Beginning(b: seq<byte>, code: string, magic: seq<byte>)
    requires |b| >= 12 && |magic| == 8 && Spells(magic, code)
    ensures Begins(b, code) <==> b[..8] == magic && FromLe16(b[8..10]) == 3
  {
    assert b[8..10][0] == b[8] && b[8..10][1] == b[9];
    if Begins(b, code) { assert forall i :: 0 <= i < 8 ==> b[..8][i] == magic[i]; }
  }

  /** The parser of root requests, told byte by byte. */
  lemma RequestExactly(b: seq<byte>, r: Request)
    ensures ParseRequest(b) == Some(r) <==> RequestBytes(b, r)
  {
    hide Supported, DriveWithSegments, Utf8.Decode, Utf8.Encode, FromLe32, FromLe16, Begins, Word;
    SupportedIffSegments(r.path);
    if |b| >= 60 {
      Beginning(b, "CRDDPA03", REQUEST_MAGIC);
      WordAt(b, 44);
      WordAt(b, 48);
      WordAt(b, 52);
      WordAt(b, 56);
      if Utf8.Decode(b[60..]).Some? { Utf8.EncodeDecode(b[60..]); }
      Utf8.DecodeEncode(r.path);
      NoNul(r.path);
      if RequestBytes(b, r) { assert ParseRole(b[11]) == Some(r.role); }
    }
  }

  lemma NoNul(path: string)
    ensures Supported(path) ==> '\0' !in path
  {
    Utf8.AsciiByteIsChar(path, '\0');
  }

  /** The parser of provider-home requests, told byte by byte. */
  lemma HomeExactly(b: seq<byte>, r: HomeRequest)
    ensures ParseHomeRequest(b) == Some(r) <==> HomeBytes(b, r)
  {
    hide FromLe16, Begins;
    if |b| == 76 {
      Beginning(b, "CRDDPH02", HOME_REQUEST_MAGIC);
      assert forall i :: 44 <= i < 76 ==> b[i] == b[44..76][i - 44];
      assert NonZero(b[44..76]) <==> exists i :: 44 <= i < 76 && b[i] != 0;
    }
  }

  // ------------------------------------------------------------ answers

  const REASONS := [UnsupportedPlatform, InvalidRequest, RootOpenFailed, RootIdentityMismatch, RootReparseRejected,
                    SecurityDescriptorUnavailable, ProcessTokenUnavailable, AccessCheckFailed]

  const HOME_REASONS := [HomeUnsupportedPlatform, HomeInvalidRequest, PrincipalUnavailable, PrincipalNotSelectedLocalUser,
                         KnownFolderUnavailable, HomeUnavailable, HomeReparseRejected, HomeNotFixedVolume, HomeIdentityChanged,
                         HomeSecurityUnavailable, HomeOwnerMismatch, HomeDaclNotProtected, HomeDaclNotRestricted,
                         HomeAccessInsufficient, MountSourceMismatch]

  /** A root response, byte by byte: the reason is its place in the list of reasons, or 100 for a candidate. */
  lemma ResponseBytes(r: Response)
    requires WellFormedResponse(r)
    ensures var b := ResponseFrame(r);
            && |b| == 86 && Begins(b, "CRDDPR03") && b[10] == (match r.role case Runtime => 1 case Authority => 2)
            && b[11] == (if r.isCandidate then 1 else 0) && b[12..44] == r.nonce
            && b[45] == 0 && (forall k :: 0 <= k < 8 ==> (b[44] == k + 1 <==> r.reason == REASONS[k]))
            && (b[44] == 100 <==> r.reason == ObservationCandidate)
            && Word(b, 46) == r.accessMask && b[50..82] == r.principalHash && Word(b, 82) == r.principalFlags
  {
    hide FromLe32;
    var b := ResponseFrame(r);
    ResponseFields(r);
    Magics();
    assert b[..8] == RESPONSE_MAGIC && b[8..10] == Le16(3);
    Beginning(b, "CRDDPR03", RESPONSE_MAGIC);
    assert b[44..46][0] == b[44] && b[44..46][1] == b[45];
    WordAt(b, 46);
    WordAt(b, 82);
  }

  lemma Magics()
    ensures Spells(REQUEST_MAGIC, "CRDDPA03") && Spells(RESPONSE_MAGIC, "CRDDPR03")
    ensures Spells(HOME_REQUEST_MAGIC, "CRDDPH02") && Spells(HOME_RESPONSE_MAGIC, "CRDDHO02") && Spells(HOME_FAMILY, "CRDDPH")
  {
  }

  /** A provider-home response, likewise. */
  lemma HomeResponseBytes(r: HomeResponse)
    requires WellFormedHomeResponse(r)
    ensures var b := HomeResponseFrame(r);
            && |b| == 182 && Begins(b, "CRDDHO02")
            && b[10] == (match r.provider case Codex => 1 case Claude => 2 case CandidateStore => 3 case RuntimeState => 4)
            && b[11] == (if r.isCandidate then 1 else 0) && b[12..44] == r.nonce
            && b[45] == 0 && (forall k :: 0 <= k < 15 ==> (b[44] == k + 1 <==> r.reason == HOME_REASONS[k]))
            && (b[44] == 100 <==> r.reason == HomeObservationCandidate)
            && Word(b, 46) == r.principalFlags && Word(b, 50) == r.homeFlags
            && b[54..86] == r.identityHash && b[86..118] == r.protectionHash && b[118..150] == r.bindingHash && b[150..182] == r.logicalHash
  {
    hide FromLe32;
    var b := HomeResponseFrame(r);
    HomeResponseFields(r);
    Magics();
    assert b[..8] == HOME_RESPONSE_MAGIC && b[8..10] == Le16(3);
    Beginning(b, "CRDDHO02", HOME_RESPONSE_MAGIC);
    hide HomeResponseFrame;
    assert b[44..46][0] == b[44] && b[44..46][1] == b[45];
    WordAt(b, 46);
    WordAt(b, 50);
  }

  // ------------------------------------------------------------ the reader and the exit codes

  /** The framed reader takes as many bytes as the length in the header says, within 4096 for the path. */
  lemma FramedExactly(stream: seq<byte>, f: seq<byte>)
    ensures FramedRequest(stream) == Some(f) <==> f <= stream && 61 <= |f| <= 4156 && Word(f, 56) == |f| - 60
  {
    hide FromLe32, Word;
    if |stream| >= 60 { WordAt(stream, 56); }
    if |f| >= 60 {
      WordAt(f, 56);
      if f <= stream {
        assert f == stream[..|f|];
        assert f[56..60] == stream[56..60];
      }
    }
    if FramedRequest(stream).Some? {
      var g := FramedRequest(stream).value;
      assert g[56..60] == stream[56..60];
      WordAt(g, 56);
    }
  }

  /** The bytes begin with the family of provider-home requests. */
  predicate OfHomeFamily(request: Option<seq<byte>>) {
    request.Some? && |request.value| >= 6 && Spells(request.value[..6], "CRDDPH")
  }

  /** The answer that says that a request is invalid: reason 2, and zeros for everything else. */
  predicate SaysInvalid(b: seq<byte>, magic: string, length: nat) {
    |b| == length >= 46 && Begins(b, magic) && b[10] == 1 && b[44] == 2 && forall i :: 11 <= i < |b| && i != 44 ==> b[i] == 0
  }

  /** What is owed for a request, by its bytes: exit code 0 for a candidate, 2 for any other answer, and 3 when the
      answer to a request cannot be written. */
  lemma AnswersExactly(p: Platform, request: Option<seq<byte>>, output: seq<byte>, code: int)
    requires Answering(p) && Answered(p, request, output, code)
    ensures !p.writable ==> output == []
    ensures forall r :: request.Some? && RequestBytes(request.value, r) ==>
              if p.writable then output == ResponseFrame(p.observe(r)) && code == (if p.observe(r).isCandidate then 0 else 2)
              else code == 3
    ensures forall r :: request.Some? && HomeBytes(request.value, r) ==>
              if p.writable then output == HomeResponseFrame(p.observeHome(r)) && code == (if p.observeHome(r).isCandidate then 0 else 2)
              else code == 3
    ensures (request.Some? ==> (forall r :: !RequestBytes(request.value, r)) && forall r :: !HomeBytes(request.value, r)) ==>
              code == 2 &&
              (p.writable ==> if OfHomeFamily(request) then SaysInvalid(output, "CRDDHO02", 182) else SaysInvalid(output, "CRDDPR03", 86))
  {
    hide RequestBytes, HomeBytes, ParseRequest, ParseHomeRequest, SaysInvalid, ResponseFrame, HomeResponseFrame;
    if request.Some? {
      var b := request.value;
      forall r ensures ParseRequest(b) == Some(r) <==> RequestBytes(b, r) { RequestExactly(b, r); }
      forall r ensures ParseHomeRequest(b) == Some(r) <==> HomeBytes(b, r) { HomeExactly(b, r); }
      KindsDisjoint(b);
      Magics();
      FamilyExactly(b);
    }
    InvalidBytes();
  }

  lemma FamilyExactly(b: seq<byte>)
    ensures HOME_FAMILY <= b <==> OfHomeFamily(Some(b))
  {
    Magics();
    if |b| >= 6 {
      if OfHomeFamily(Some(b)) { assert forall i :: 0 <= i < 6 ==> b[..6][i] == HOME_FAMILY[i]; }
    }
  }

  lemma InvalidBytes()
    ensures SaysInvalid(ResponseFrame(InvalidResponse()), "CRDDPR03", 86)
    ensures SaysInvalid(HomeResponseFrame(InvalidHomeResponse()), "CRDDHO02", 182)
  {
    InvalidRootBytes();
    InvalidHomeBytes();
  }

  /** A range of zeros, and a word that is zero. */
  lemma ZeroRange(b: seq<byte>, i: nat)
    requires i + 32 <= |b| && b[i..i + 32] == ZEROS
    ensures forall k :: i <= k < i + 32 ==> b[k] == 0
  {
    assert forall k :: 0 <= k < 32 ==> ZEROS[k] == 0;
    assert forall k :: i <= k < i + 32 ==> b[k] == b[i..i + 32][k - i];
  }

  lemma ZeroWord(b: seq<byte>, i: nat)
    requires i + 4 <= |b| && Word(b, i) == 0
    ensures forall k :: i <= k < i + 4 ==> b[k] == 0
  {
    assert b[i] == 0 && b[i + 1] == 0 && b[i + 2] == 0 && b[i + 3] == 0;
  }

  lemma InvalidRootBytes()
    ensures SaysInvalid(ResponseFrame(InvalidResponse()), "CRDDPR03", 86)
  {
    hide ResponseFrame, Begins, Word, ZEROS;
    var r := InvalidResponse();
    var b := ResponseFrame(r);
    ResponseBytes(r);
    assert REASONS[1] == r.reason;
    ZeroRange(b, 12);
    ZeroWord(b, 46);
    ZeroRange(b, 50);
    ZeroWord(b, 82);
  }

  lemma InvalidHomeBytes()
    ensures SaysInvalid(HomeResponseFrame(InvalidHomeResponse()), "CRDDHO02", 182)
  {
    hide HomeResponseFrame, Begins, Word, ZEROS;
    var r := InvalidHomeResponse();
    var b := HomeResponseFrame(r);
    HomeResponseBytes(r);
    assert HOME_REASONS[1] == r.reason;
    ZeroRange(b, 12);
    ZeroWord(b, 46);
    ZeroWord(b, 50);
    ZeroRange(b, 54);
    ZeroRange(b, 86);
    ZeroRange(b, 118);
    ZeroRange(b, 150);
  }
}
