/**
 Placing the signed manifest into a staging directory: create exclusively, write in parts, read back in parts,
 and compare. Every answer of the file system is arbitrary, and an outsider may overwrite the file before it is
 read back.
 */
module StagingPlacement {
  import opened Common
  import opened Buffers

  const MAXIMUM_BYTES := 128 * 1024

  /** What fstat or lstat says of the manifest, when it is a regular file; stamp stands for all but the size. */
  datatype Metadata = Metadata(size: nat, stamp: nat)

  datatype Environment = Environment(
    bytes: Option<seq<byte>>,                 // the argument, when it is a buffer
    sessionKnown: bool, verifiedBefore: bool, openThrows: bool,
    created: Option<Metadata>,
    writes: seq<int>,                         // what each write call answers; beyond them a write throws
    syncThrows: bool, overwritten: Option<seq<byte>>,
    postWriteStamp: Option<nat>, afterReadStamp: Option<nat>, pathStamp: Option<nat>, pathSize: nat,
    grants: seq<nat>,                         // how much each read call grants; beyond them a read throws
    pathStays: bool, verifiedAfter: bool, closeThrows: bool)

  datatype Outcome = Placed | Refused(effectIssued: bool, mustDiscard: bool)

  predicate Admitted(e: Environment) {
    e.sessionKnown && e.bytes.Some? && 1 <= |e.bytes.value| <= MAXIMUM_BYTES && e.verifiedBefore
  }

  /** The exclusive creation succeeds only where there is no file. */
  predicate Creates(e: Environment, file: Option<seq<byte>>) {
    Admitted(e) && !e.openThrows && file.None?
  }

  predicate AllPositive(counts: seq<int>) {
    forall i :: 0 <= i < |counts| ==> counts[i] > 0
  }

  /** Every call of the file system makes some progress, and nobody touches the file. */
  predicate Smooth(e: Environment) {
    && e.bytes.Some? && var n := |e.bytes.value|;
    && e.created.Some? && e.created.value.size == 0 && |e.writes| >= n && AllPositive(e.writes)
    && |e.grants| >= n + 1 && (forall i :: 0 <= i < |e.grants| ==> e.grants[i] > 0)
    && !e.syncThrows && e.overwritten.None? && !e.closeThrows && e.postWriteStamp.Some?
    && e.afterReadStamp == e.postWriteStamp && e.pathStamp == e.postWriteStamp && e.pathSize == n && e.pathStays && e.verifiedAfter
  }

  /** Every observation of the file was made, and agrees with what was written. */
  predicate Unharmed(e: Environment) {
    && e.created.Some? && e.created.value.size == 0 && !e.syncThrows && !e.closeThrows
    && e.postWriteStamp.Some? && e.afterReadStamp == e.postWriteStamp && e.pathStamp == e.postWriteStamp
    && e.bytes.Some? && e.pathSize == |e.bytes.value| && e.pathStays && e.verifiedAfter
  }

  class Staging {
    var file: Option<seq<byte>>
    var descriptorOpen: bool
    var closeAttempts: nat

    constructor (file: Option<seq<byte>>)
      ensures this.file == file && !descriptorOpen && closeAttempts == 0
    {
      this.file, descriptorOpen, closeAttempts := file, false, 0;
    }

    /** writeSync at a position: bytes before it stay, and what is written replaces or extends. */
    method WriteAt(position: nat, data: seq<byte>)
      requires file.Some? && position <= |file.value|
      modifies this`file
      ensures file.Some? && position + |data| <= |file.value|
      ensures file.value[..position] == old(file).value[..position]
      ensures file.value[position..position + |data|] == data
      ensures position + |data| >= |old(file).value| ==> |file.value| == position + |data|
    {
      var rest := if position + |data| <= |file.value| then file.value[position + |data|..] else [];
      file := Some(file.value[..position] + data + rest);
    }

    /** The write loop. */
    method WriteAll(owned: array<byte>, writes: seq<int>) returns (ok: bool)
      requires file == Some([])
      modifies this`file
      ensures file.Some?
      ensures ok ==> file == Some(owned[..])
      ensures |writes| >= owned.Length && AllPositive(writes) ==> ok
      ensures !ok ==> file.value <= owned[..] && |file.value| < owned.Length
    {
      var written, calls := 0, 0;
      while written < owned.Length
        invariant 0 <= written <= owned.Length && 0 <= calls <= |writes|
        invariant file == Some(owned[..written])
        invariant AllPositive(writes) ==> calls <= written
        decreases owned.Length - written
      {
        if calls == |writes| { return false; }
        var count := if writes[calls] > owned.Length - written then owned.Length - written else writes[calls];
        calls := calls + 1;
        if count <= 0 { return false; }
        ghost var before := file.value;
        assert before[..written] == before;
        WriteAt(written, owned[written..written + count]);
        PrefixGrows(owned[..], written, count);
        assert owned[..][..written] == owned[..written] && owned[..][written..written + count] == owned[written..written + count];
        assert owned[..][..written + count] == owned[..written + count];
        assert file.value == file.value[..written] + file.value[written..written + count];
        written := written + count;
      }
      assert owned[..written] == owned[..];
      ok := true;
    }

    /** The read-back loop into a buffer one byte longer than what was written. */
    method ReadBack(observed: array<byte>, grants: seq<nat>) returns (ok: bool, length: nat)
      requires file.Some?
      modifies observed
      ensures length <= observed.Length && length <= |file.value| && observed[..length] == file.value[..length]
      ensures ok && length < observed.Length ==> length == |file.value| || 0 in grants
      ensures |grants| > |file.value| && 0 !in grants ==> ok && (|file.value| <= observed.Length ==> length == |file.value|)
    {
      length := 0;
      var calls := 0;
      while length < observed.Length
        invariant 0 <= length <= observed.Length && length <= |file.value| && 0 <= calls <= |grants|
        invariant observed[..length] == file.value[..length]
        invariant 0 !in grants ==> calls <= length
        decreases |grants| - calls
      {
        if calls == |grants| { return false, length; }
        var wanted := observed.Length - length;
        var available := if |file.value| - length < wanted then |file.value| - length else wanted;
        var count := if grants[calls] < available then grants[calls] else available;
        calls := calls + 1;
        if count == 0 { break; }
        Append(observed, length, file.value[length..length + count]);
        PrefixGrows(file.value, length, count);
        length := length + count;
      }
      ok := true;
    }

    /** closeSync; a failure leaves the descriptor open as far as anyone knows. */
    method Close(throws: bool) returns (ok: bool)
      modifies this`descriptorOpen, this`closeAttempts
      ensures closeAttempts == old(closeAttempts) + 1 && ok == !throws
      ensures ok ==> !descriptorOpen
    {
      closeAttempts := closeAttempts + 1;
      if !throws { descriptorOpen := false; }
      ok := !throws;
    }

    /** placeReleaseStagingManifestCandidate. */
    method Place(e: Environment) returns (r: Outcome)
      requires !descriptorOpen
      modifies this
      // Success means that the new file holds exactly the input.
      ensures r.Placed? ==> Creates(e, old(file)) && file == e.bytes && !descriptorOpen
      // And that nothing was wrong with the file at any time: it was new, and the same file with the same stamp ever since.
      ensures r.Placed? ==> Unharmed(e)
      // Every failure says truthfully whether the file was created, and asks for discard once creation was attempted:
      // in a verified session, with 1 to 131072 bytes.
      ensures r.Refused? ==>
                var attempted := e.sessionKnown && e.verifiedBefore && e.bytes.Some? && 1 <= |e.bytes.value| <= 131072;
                r.mustDiscard == attempted && r.effectIssued == (attempted && !e.openThrows && old(file).None?)
      // Without creation nothing changes, and an existing file is never touched.
      ensures !Creates(e, old(file)) ==> file == old(file) && closeAttempts == old(closeAttempts)
      // And it does succeed when every call makes progress and nothing interferes.
      ensures Creates(e, old(file)) && Smooth(e) ==> r.Placed?
      // A file that was created is closed: once, or a second time when the first attempt failed.
      ensures Creates(e, old(file)) ==> closeAttempts == old(closeAttempts) + 1 || (e.closeThrows && closeAttempts == old(closeAttempts) + 2)
      ensures Creates(e, old(file)) && !e.closeThrows ==> !descriptorOpen
    {
      if !e.sessionKnown || e.bytes.None? { return Refused(false, false); }
      var input := e.bytes.value;
      if |input| < 1 || |input| > MAXIMUM_BYTES { return Refused(false, false); }
      var owned := new byte[|input|](i requires 0 <= i < |input| => input[i]);
      assert owned[..] == input;
      if !e.verifiedBefore { return Refused(false, false); }
      if e.openThrows || file.Some? { return Refused(false, true); }
      file, descriptorOpen := Some([]), true;
      var kept := WriteAndCompare(e, owned);
      if kept {
        var closed := Close(e.closeThrows);
        if closed { return Placed; }
      }
      var _ := Close(e.closeThrows);
      r := Refused(true, true);
    }

    /** Everything between the creation and the close. */
    method WriteAndCompare(e: Environment, owned: array<byte>) returns (kept: bool)
      requires file == Some([])
      modifies this`file
      ensures file.Some? && (kept ==> file == Some(owned[..]))
      ensures kept ==>
                e.created.Some? && e.created.value.size == 0 && !e.syncThrows && e.postWriteStamp.Some? &&
                e.afterReadStamp == e.postWriteStamp && e.pathStamp == e.postWriteStamp && e.pathSize == owned.Length &&
                e.pathStays && e.verifiedAfter
      ensures Smooth(e) && |e.bytes.value| == owned.Length ==> kept
    {
      if e.created.None? || e.created.value.size != 0 { return false; }
      var wrote := WriteAll(owned, e.writes);
      if !wrote || e.syncThrows { return false; }
      var sizeWritten := |file.value|;
      if e.postWriteStamp.None? || sizeWritten != owned.Length { return false; }
      if e.overwritten.Some? { file := e.overwritten; }
      var observed := new byte[owned.Length + 1];
      var read, length := ReadBack(observed, e.grants);
      if !read || e.afterReadStamp.None? || |file.value| != owned.Length { return false; }
      if e.pathStamp.None? || e.pathSize != owned.Length { return false; }
      if length != owned.Length || observed[..length] != owned[..] { return false; }
      assert file.value[..length] == file.value;
      if e.postWriteStamp != e.afterReadStamp || e.postWriteStamp != e.pathStamp { return false; }
      kept := e.pathStays && e.verifiedAfter;
    }
  }
}
