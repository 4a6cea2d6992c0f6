/** The worker's readers and its dispatch over the two request kinds. */
module WorkerEntry {
  import opened Common
  import Utf8
  import opened WorkerProtocol

  /** A byte stream that hands out at most 1 + grants(k) bytes at its k-th read, and after its last byte either ends
      or fails. */
  class Reader {
    const grants: nat -> nat
    const fails: bool
    var stream: seq<byte>
    var calls: nat

    constructor (stream: seq<byte>, fails: bool, grants: nat -> nat)
      ensures this.stream == stream && this.fails == fails && this.grants == grants
    {
      this.stream, this.fails, this.grants, calls := stream, fails, grants, 0;
    }

    /** One read call: empty exactly at the end of the stream; None is an error. */
    method Read(limit: nat) returns (chunk: Option<seq<byte>>)
      requires limit > 0
      modifies this
      ensures chunk.None? <==> old(stream) == [] && fails
      ensures chunk.None? ==> stream == []
      ensures chunk.Some? ==> chunk.value + stream == old(stream) && |chunk.value| <= limit
      ensures chunk.Some? ==> (chunk.value == [] <==> old(stream) == [])
    {
      if stream == [] && fails { return None; }
      var granted := if 1 + grants(calls) <= limit then 1 + grants(calls) else limit;
      var count := if granted <= |stream| then granted else |stream|;
      chunk, stream, calls := Some(stream[..count]), stream[count..], calls + 1;
    }

    /** read_exact. */
    method ReadExact(n: nat) returns (r: Option<seq<byte>>)
      modifies this
      ensures |old(stream)| >= n ==> r == Some(old(stream)[..n]) && stream == old(stream)[n..]
      ensures |old(stream)| < n ==> r == None && stream == []
    {
      var got: seq<byte> := [];
      while |got| < n
        invariant got + stream == old(stream) && |got| <= n
        decreases n - |got|
      {
        var chunk := Read(n - |got|);
        if chunk.None? || chunk.value == [] { return None; }
        got := got + chunk.value;
      }
      r := Some(got);
    }
  }

  /** read_framed_request_from as a function of the bytes that will arrive. */
  function FramedRequest(stream: seq<byte>): (r: Option<seq<byte>>)
    ensures r.Some? ==> r.value <= stream
  {
    if |stream| < REQUEST_HEADER_BYTES then None
    else
      var pathLength := FromLe32(stream[56..60]);
      if pathLength == 0 || pathLength > MAXIMUM_PATH_BYTES || |stream| < REQUEST_HEADER_BYTES + pathLength then None
      else Some(stream[..REQUEST_HEADER_BYTES + pathLength])
  }

  method ReadFramedRequest(reader: Reader) returns (r: Option<seq<byte>>)
    modifies reader
    ensures r == FramedRequest(old(reader.stream))
    ensures r.Some? ==> r.value + reader.stream == old(reader.stream)
  {
    ghost var all := reader.stream;
    var header := reader.ReadExact(REQUEST_HEADER_BYTES);
    if header.None? { return None; }
    assert header.value[56..60] == all[56..60];
    var pathLength := FromLe32(header.value[56..60]);
    if pathLength == 0 || pathLength > MAXIMUM_PATH_BYTES { return None; }
    var path := reader.ReadExact(pathLength);
    if path.None? { return None; }
    assert all[..REQUEST_HEADER_BYTES] + all[REQUEST_HEADER_BYTES..][..pathLength] == all[..REQUEST_HEADER_BYTES + pathLength];
    r := Some(header.value + path.value);
  }

  /** read_request_from: everything up to the end, refused beyond the maximum and when reading fails before it. */
  method ReadRequest(reader: Reader) returns (r: Option<seq<byte>>)
    modifies reader
    ensures r == if |old(reader.stream)| <= 65536 && !reader.fails then Some(old(reader.stream)) else None
  {
    var got: seq<byte> := [];
    var chunk := [0];
    while chunk != [] && |got| < MAXIMUM_REQUEST_BYTES + 1
      invariant got + reader.stream == old(reader.stream) && |got| <= MAXIMUM_REQUEST_BYTES + 1
      invariant chunk == [] ==> reader.stream == [] && !reader.fails
      decreases chunk != [], MAXIMUM_REQUEST_BYTES + 1 - |got|
    {
      var read := reader.Read(MAXIMUM_REQUEST_BYTES + 1 - |got|);
      if read.None? { return None; }
      chunk := read.value;
      got := got + chunk;
    }
    assert reader.stream == [] ==> got == old(reader.stream);
    r := if |got| > MAXIMUM_REQUEST_BYTES then None else Some(got);
  }

  /** The framed reader takes exactly one encoded root request off the stream. */
  lemma FramedReaderExact(r: Request, rest: seq<byte>)
    requires WellFormed(r)
    ensures FramedRequest(EncodeRequest(r) + rest) == Some(EncodeRequest(r))
  {
    var b := EncodeRequest(r);
    var n := |Utf8.Encode(r.path)|;
    HeaderFields(r, n, b);
    assert (b + rest)[56..60] == b[56..60] && (b + rest)[..|b|] == b;
    Le32RoundTrip(n, b[56..60]);
  }

  /** The framed reader has no frame for provider-home requests: it takes four bytes of the mount
      source hash for a length, and delivers the request whole exactly when they happen to spell 16. */
  lemma FramedReaderOnHomeRequest(r: HomeRequest, rest: seq<byte>)
    requires WellFormedHome(r)
    ensures FramedRequest(EncodeHomeRequest(r) + rest) == Some(EncodeHomeRequest(r)) <==>
              FromLe32(r.mountSourceHash[12..16]) == 16
  {
    var b := EncodeHomeRequest(r);
    HomeLengthField(r, rest);
    assert (b + rest)[..76] == b;
  }

  const ONES: seq<byte> := [1, 1, 1, 1, 1, 1, 1, 1, 1, 1, 1, 1, 1, 1, 1, 1, 1, 1, 1, 1, 1, 1, 1, 1, 1, 1, 1, 1, 1, 1, 1, 1]

  /** The failing case: a provider-home request whose hash is all ones is no frame at all, whatever comes after it. */
  lemma HomeRequestUnframed(provider: Provider, rest: seq<byte>)
    ensures WellFormedHome(HomeRequest(provider, false, ONES, ONES))
    ensures FramedRequest(EncodeHomeRequest(HomeRequest(provider, false, ONES, ONES)) + rest).None?
  {
    var r := HomeRequest(provider, false, ONES, ONES);
    assert ONES[0] == 1;
    assert NonZero(ONES);
    HomeLengthField(r, rest);
    assert ONES[12..16] == [1, 1, 1, 1];
  }

  /** Where the framed reader looks for a length, a provider-home request has bytes of its hash. */
  lemma HomeLengthField(r: HomeRequest, rest: seq<byte>)
    requires |r.nonce| == 32 && |r.mountSourceHash| == 32
    ensures |EncodeHomeRequest(r) + rest| >= 76
    ensures (EncodeHomeRequest(r) + rest)[56..60] == r.mountSourceHash[12..16]
  {
    var b := EncodeHomeRequest(r);
    assert b[44..76] == r.mountSourceHash;
    assert (b + rest)[56..60] == b[44..76][12..16];
  }

  // ------------------------------------------------------------ dispatch

  /** The observations behind the worker, and whether its output can be written. */
  datatype Platform = Platform(observe: Request -> Response, observeHome: HomeRequest -> HomeResponse, writable: bool)

  ghost predicate Answering(p: Platform) {
    (forall r :: WellFormedResponse(p.observe(r))) && (forall r :: WellFormedHomeResponse(p.observeHome(r)))
  }

  const ZEROS: seq<byte> := [0, 0, 0, 0, 0, 0, 0, 0, 0, 0, 0, 0, 0, 0, 0, 0, 0, 0, 0, 0, 0, 0, 0, 0, 0, 0, 0, 0, 0, 0, 0, 0]

  function InvalidResponse(): (r: Response)
    ensures WellFormedResponse(r) && !r.isCandidate
  {
    Response(Runtime, ZEROS, false, InvalidRequest, 0, ZEROS, 0)
  }

  function InvalidHomeResponse(): (r: HomeResponse)
    ensures WellFormedHomeResponse(r) && !r.isCandidate
  {
    HomeResponse(Codex, ZEROS, false, HomeInvalidRequest, 0, 0, ZEROS, ZEROS, ZEROS, ZEROS)
  }

  /** What the worker owes for the bytes it received: one answer frame and an exit code. */
  ghost predicate Answered(p: Platform, request: Option<seq<byte>>, output: seq<byte>, code: int)
    requires Answering(p)
  {
    if request.Some? && ParseHomeRequest(request.value).Some? then
      var r := p.observeHome(ParseHomeRequest(request.value).value);
      output == (if p.writable then HomeResponseFrame(r) else []) &&
      code == (if !p.writable then 3 else if r.isCandidate then 0 else 2)
    else if request.Some? && ParseRequest(request.value).Some? then
      var r := p.observe(ParseRequest(request.value).value);
      output == (if p.writable then ResponseFrame(r) else []) &&
      code == (if !p.writable then 3 else if r.isCandidate then 0 else 2)
    else
      code == 2 &&
      output == (if !p.writable then []
                 else if request.Some? && HOME_FAMILY <= request.value then HomeResponseFrame(InvalidHomeResponse())
                 else ResponseFrame(InvalidResponse()))
  }

  method ExecuteBytes(p: Platform, request: seq<byte>) returns (output: seq<byte>, code: int)
    requires Answering(p)
    ensures Answered(p, Some(request), output, code)
  {
    output := [];
    var home := ParseHomeRequest(request);
    if home.Some? {
      var r := p.observeHome(home.value);
      if !p.writable { return [], 3; }
      var frame := EncodeHomeResponse(r);
      return frame[..], if r.isCandidate then 0 else 2;
    }
    var root := ParseRequest(request);
    if root.None? {
      if p.writable {
        if |request| >= 6 && request[..6] == HOME_FAMILY {
          var frame := EncodeHomeResponse(InvalidHomeResponse());
          output := frame[..];
        } else {
          var frame := EncodeResponse(InvalidResponse());
          output := frame[..];
        }
      }
      return output, 2;
    }
    var r := p.observe(root.value);
    if !p.writable { return [], 3; }
    var frame := EncodeResponse(r);
    return frame[..], if r.isCandidate then 0 else 2;
  }

  method Execute(p: Platform, reader: Reader, framed: bool) returns (output: seq<byte>, code: int)
    requires Answering(p)
    modifies reader
    ensures Answered(p,
                     if framed then FramedRequest(old(reader.stream))
                     else if |old(reader.stream)| <= 65536 && !reader.fails then Some(old(reader.stream)) else None,
                     output, code)
  {
    var request;
    if framed {
      request := ReadFramedRequest(reader);
    } else {
      request := ReadRequest(reader);
    }
    if request.None? {
      if !p.writable { return [], 2; }
      var frame := EncodeResponse(InvalidResponse());
      return frame[..], 2;
    }
    output, code := ExecuteBytes(p, request.value);
  }

  /** Exit code 0 is only ever given for bytes that are the encoding of a well-formed request of
      exactly one kind, and the answer is the frame of the matching kind for that very request. */
  lemma SuccessAnswersOneRequest(p: Platform, request: Option<seq<byte>>, output: seq<byte>)
    requires Answering(p) && Answered(p, request, output, 0)
    ensures (exists r :: WellFormed(r) && request == Some(EncodeRequest(r)) && output == ResponseFrame(p.observe(r))) !=
            (exists r :: WellFormedHome(r) && request == Some(EncodeHomeRequest(r)) && output == HomeResponseFrame(p.observeHome(r)))
  {
    var b := request.value;
    if ParseHomeRequest(b).Some? {
      EncodeParseHomeRequest(b);
      if r :| WellFormed(r) && b == EncodeRequest(r) {
        ParseEncodeRequest(r);
        KindsDisjoint(b);
      }
    } else {
      EncodeParseRequest(b);
      if r :| WellFormedHome(r) && b == EncodeHomeRequest(r) {
        ParseEncodeHomeRequest(r);
      }
    }
  }

  /** The first eight bytes of an answer tell which of the two kinds it is. */
  lemma FrameKindsDiffer(r: Response, h: HomeResponse)
    requires WellFormedResponse(r) && WellFormedHomeResponse(h)
    ensures ResponseFrame(r) != HomeResponseFrame(h) && ResponseFrame(r)[..8] != HomeResponseFrame(h)[..8]
  {
    assert ResponseFrame(r)[4] == RESPONSE_MAGIC[4] && HomeResponseFrame(h)[4] == HOME_RESPONSE_MAGIC[4];
    assert ResponseFrame(r)[..8][4] != HomeResponseFrame(h)[..8][4];
  }
}
