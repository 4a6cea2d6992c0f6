/** Vocabulary shared by the models: optional values and bytes. */
module Common {
  datatype Option<+T> = None | Some(value: T)

  /** An octet, kept as a number so that lengths and little-endian fields stay in linear arithmetic. */
  type byte = i: int | 0 <= i < 256

  /** Different elements of a list are no more than the list is long. */
  lemma {:induction false} NoMoreThan<T>(s: seq<T>, list: seq<T>)
    requires forall i, j :: 0 <= i < j < |s| ==> s[i] != s[j]
    requires forall x :: x in s ==> x in list
    ensures |s| <= |list|
  {
    if s != [] {
      assert s[0] in s && s[0] in list;
      var k :| 0 <= k < |list| && list[k] == s[0];
      var rest := list[..k] + list[k + 1..];
      forall x | x in s[1..] ensures x in rest {
        assert x in list && x != list[k];
      }
      NoMoreThan(s[1..], rest);
    }
  }
}
