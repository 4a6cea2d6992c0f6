/**
 Signing with a private key file: the key is read once per authorization, through one descriptor, into a buffer
 that does not outlive the call. The answers of the file system and of the cryptography are arbitrary.
 */
module KeySigning {
  import opened Common
  import opened Buffers
  import opened OneShot
  import Utf8

  const MAXIMUM_PASSPHRASE_BYTES := 1024

  datatype Identity = Identity(path: string, dev: nat, ino: nat, birthtime: nat, size: nat, mtime: nat)

  /** The identity of an open descriptor: that of the file without its path. */
  function Opened(i: Identity): (nat, nat, nat, nat, nat) {
    (i.dev, i.ino, i.birthtime, i.size, i.mtime)
  }

  datatype Environment = Environment(
    before: Option<Identity>, openThrows: bool, atOpen: Option<(nat, nat, nat, nat, nat)>, content: seq<byte>,
    grants: seq<nat>,                        // how much each read call grants; beyond them a read throws
    after: Option<(nat, nat, nat, nat, nat)>, pathAfter: Option<Identity>, closeThrows: bool)

  /** What the cryptography does with the key and the passphrase; None is a thrown error. */
  type Crypto = (seq<byte>, seq<byte>) -> Option<(seq<byte>, seq<byte>)>   // the public key and the signature

  /** The file stays as it was authorized, holds its bytes, and every read makes some progress. */
  predicate Smooth(i: Identity, e: Environment) {
    e.before == Some(i) && !e.openThrows && e.atOpen == Some(Opened(i)) && i.size <= |e.content| &&
    |e.grants| >= i.size && (forall k :: 0 <= k < |e.grants| ==> e.grants[k] > 0) &&
    e.after == Some(Opened(i)) && e.pathAfter == Some(i) && !e.closeThrows
  }

  predicate InOrder(granted: Answer<Identity>, passphrase: Option<string>, e: Environment) {
    granted.Yielded? && Smooth(granted.value, e) && passphrase.Some? && passphrase.value != "" &&
    |Utf8.Encode(passphrase.value)| <= 1024
  }

  /** Two descriptors agree exactly when device, file number, birth, size and modification do. */
  lemma OpenedExactly(i: Identity, j: Identity)
    ensures Opened(i) == Opened(j) <==>
              i.dev == j.dev && i.ino == j.ino && i.birthtime == j.birthtime && i.size == j.size && i.mtime == j.mtime
    ensures Opened(i).3 == i.size
  {
  }

  ghost predicate Zeroed(b: array<byte>)
    reads b
  {
    forall i :: 0 <= i < b.Length ==> b[i] == 0
  }

  method Fill(b: array<byte>)
    modifies b
    ensures Zeroed(b)
  {
    for i := 0 to b.Length
      invariant forall k :: 0 <= k < i ==> b[k] == 0
    {
      b[i] := 0;
    }
  }

  class Signer {
    const authorizations: Authorizations<Identity>
    var opens: nat
    var closeAttempts: nat
    // The buffers that held the passphrase or bytes of a key.
    ghost var secrets: set<array<byte>>

    ghost predicate Clean()
      reads this, secrets
    {
      forall b :: b in secrets ==> Zeroed(b)
    }

    constructor ()
      ensures opens == 0 && closeAttempts == 0 && secrets == {} && fresh(authorizations) && authorizations.records == map[]
    {
      authorizations := new Authorizations<Identity>();
      opens, closeAttempts, secrets := 0, 0, {};
    }

    /** The read loop, at the position of the descriptor. */
    method FillFrom(bytes: array<byte>, e: Environment) returns (threw: bool, offset: nat)
      modifies bytes
      ensures offset <= bytes.Length && offset <= |e.content| && bytes[..offset] == e.content[..offset]
      ensures !threw && offset < bytes.Length ==> offset == |e.content| || 0 in e.grants
      ensures |e.grants| >= bytes.Length && 0 !in e.grants && bytes.Length <= |e.content| ==> !threw && offset == bytes.Length
    {
      offset := 0;
      var calls := 0;
      while offset < bytes.Length
        invariant 0 <= offset <= bytes.Length && offset <= |e.content| && 0 <= calls <= |e.grants|
        invariant bytes[..offset] == e.content[..offset]
        invariant 0 !in e.grants ==> calls <= offset
        decreases |e.grants| - calls
      {
        if calls == |e.grants| { return true, offset; }
        var wanted := bytes.Length - offset;
        var available := if |e.content| - offset < wanted then |e.content| - offset else wanted;
        var count := if e.grants[calls] < available then e.grants[calls] else available;
        calls := calls + 1;
        if count == 0 { break; }
        Append(bytes, offset, e.content[offset..offset + count]);
        PrefixGrows(e.content, offset, count);
        offset := offset + count;
      }
      threw := false;
    }

    /** readStablePrivateKey. */
    method ReadStablePrivateKey(expected: Identity, e: Environment) returns (key: array?<byte>)
      modifies this`opens, this`closeAttempts, this`secrets
      // Closing the descriptor is attempted on every exit, once; a close that throws is a failing exit.
      ensures closeAttempts - old(closeAttempts) == opens - old(opens) <= 1
      // A failing exit leaves its buffers zeroed; a succeeding one hands over the only one that is not.
      ensures old(secrets) <= secrets && fresh(secrets - old(secrets))
      ensures forall b :: b in secrets - old(secrets) && b != key ==> Zeroed(b)
      ensures key != null ==>
                fresh(key) && key in secrets && key.Length == expected.size <= |e.content| &&
                key[..] == e.content[..expected.size]
      // A key is handed over only when every observation agrees with the authorized identity.
      ensures key != null ==>
                e.before == Some(expected) && e.atOpen == Some(Opened(expected)) && e.after == Some(Opened(expected)) &&
                e.pathAfter == Some(expected) && !e.closeThrows && !e.openThrows
      ensures e.before != Some(expected) ==> opens == old(opens)
      ensures Smooth(expected, e) ==> key != null
    {
      key := null;
      if e.before != Some(expected) || e.openThrows { return; }
      opens := opens + 1;
      var bytes: array?<byte> := null;
      var failed := false;
      if e.atOpen != Some(Opened(expected)) {
        failed := true;
      } else {
        bytes := new byte[expected.size](_ => 0);
        secrets := secrets + {bytes};
        var threw, offset := FillFrom(bytes, e);
        failed := threw || e.after.None? || e.pathAfter.None? || offset != bytes.Length ||
                  e.after != e.atOpen || e.pathAfter != Some(expected);
      }
      closeAttempts := closeAttempts + 1;
      if e.closeThrows { failed := true; }
      if failed {
        if bytes != null { Fill(bytes); }
        return;
      }
      assert bytes[..bytes.Length] == bytes[..];
      key := bytes;
    }

    /** signEd25519Payload; the payload is part of what crypto stands for. */
    method Sign(token: nat, passphrase: Option<string>, expectedPublicKey: seq<byte>, crypto: Crypto, e: Environment)
      returns (signature: Option<seq<byte>>)
      requires Clean()
      modifies this`opens, this`closeAttempts, this`secrets, authorizations
      // One authorization, one attempt: the token is used up whatever happens, and a used one opens nothing.
      ensures authorizations.records == Do(old(authorizations.records), Take(token)).0
      ensures Do(old(authorizations.records), Take(token)).1.Refused? ==> signature.None? && opens == old(opens)
      // Without a passphrase of 1 to 1024 bytes nothing is opened.
      ensures passphrase.None? || passphrase.value == "" || |Utf8.Encode(passphrase.value)| > 1024 ==>
                signature.None? && opens == old(opens)
      // On every exit closing the descriptor was attempted, and no secret remains in a buffer.
      ensures closeAttempts - old(closeAttempts) == opens - old(opens) <= 1
      ensures Clean()
      // A signature is made only with the authorized, unchanged key file and the expected public key.
      ensures signature.Some? ==>
                exists identity :: Do(old(authorizations.records), Take(token)).1 == Yielded(identity) &&
                  e.before == Some(identity) && e.atOpen == Some(Opened(identity)) && e.after == Some(Opened(identity)) &&
                  e.pathAfter == Some(identity) && identity.size <= |e.content| && passphrase.Some? &&
                  crypto(e.content[..identity.size], Utf8.Encode(passphrase.value)) == Some((expectedPublicKey, signature.value))
      // And it is made when everything is in order and the key opens with the passphrase.
      ensures var granted := Do(old(authorizations.records), Take(token)).1;
              InOrder(granted, passphrase, e) ==>
                var made := crypto(e.content[..granted.value.size], Utf8.Encode(passphrase.value));
                made.Some? && made.value.0 == expectedPublicKey ==> signature == Some(made.value.1)
    {
      hide Smooth, Opened, Do, Utf8.Encode;
      signature := None;
      var authorized := authorizations.Consume(token);
      if authorized.None? { return; }
      var identity := authorized.value;
      if passphrase.None? || passphrase.value == "" { return; }
      var encoded := Utf8.Encode(passphrase.value);
      if |encoded| > MAXIMUM_PASSPHRASE_BYTES { return; }
      var secret := new byte[|encoded|](i requires 0 <= i < |encoded| => encoded[i]);
      secrets := secrets + {secret};
      assert secret[..] == encoded;
      var key := ReadStablePrivateKey(identity, e);
      if key != null {
        var made := crypto(key[..], secret[..]);
        if made.Some? && made.value.0 == expectedPublicKey { signature := Some(made.value.1); }
      }
      Fill(secret);
      if key != null { Fill(key); }
    }
  }
}
