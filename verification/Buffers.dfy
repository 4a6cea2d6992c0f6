/** Filling a buffer from the front. */
module Buffers {
  import opened Common

  /** What one read call puts behind the bytes that are already there. */
  method Append(buffer: array<byte>, filled: nat, data: seq<byte>)
    requires filled + |data| <= buffer.Length
    modifies buffer
    ensures buffer[..filled + |data|] == old(buffer[..filled]) + data
  {
    ghost var before := buffer[..filled];
    for k := 0 to |data|
      invariant buffer[..filled] == before
      invariant buffer[filled..filled + k] == data[..k]
    {
      buffer[filled + k] := data[k];
      assert buffer[filled..filled + k + 1] == buffer[filled..filled + k] + [data[k]];
    }
    assert buffer[..filled + |data|] == buffer[..filled] + buffer[filled..filled + |data|];
  }

  /** A field behind a head of known length, and in front of anything. */
  lemma FieldAt(head: seq<byte>, field: seq<byte>, rest: seq<byte>)
    ensures var b := head + field + rest; b[..|head|] == head && b[|head|..|head| + |field|] == field
  {
  }

  /** A slice of a slice from the front is a slice of the whole. */
  lemma SliceOfPrefix(b: seq<byte>, n: nat, i: nat, j: nat)
    requires i <= j <= n <= |b|
    ensures b[..n][i..j] == b[i..j]
  {
  }

  lemma PrefixGrows(content: seq<byte>, n: nat, count: nat)
    requires n + count <= |content|
    ensures content[..n + count] == content[..n] + content[n..n + count]
  {
  }
}
