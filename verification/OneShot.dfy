/** Authorizations that yield their value once. */
module OneShot {
  import opened Common

  datatype Record<V> = Record(value: V, available: bool)

  /** createOneShotAuthorizationState; tokens are object identities, kept as numbers. */
  class Authorizations<V> {
    var records: map<nat, Record<V>>

    constructor ()
      ensures records == map[]
    {
      records := map[];
    }

    method Register(token: nat, value: V) returns (ok: bool)
      modifies this
      ensures (records, if ok then Done else Refused) == Do(old(records), Add(token, value))
    {
      if token in records { return false; }
      records := records[token := Record(value, true)];
      ok := true;
    }

    method Consume(token: nat) returns (value: Option<V>)
      modifies this
      ensures (records, if value.Some? then Yielded(value.value) else Refused) == Do(old(records), Take(token))
    {
      if token !in records || !records[token].available { return None; }
      var record := records[token];
      records := records[token := Record(record.value, false)];
      value := Some(record.value);
    }
  }

  datatype Call<V> = Add(token: nat, value: V) | Take(token: nat)

  datatype Answer<V> = Done | Refused | Yielded(value: V)

  function Do<V>(records: map<nat, Record<V>>, c: Call<V>): (map<nat, Record<V>>, Answer<V>) {
    match c
    case Add(token, value) =>
      if token in records then (records, Refused) else (records[token := Record(value, true)], Done)
    case Take(token) =>
      if token !in records || !records[token].available then (records, Refused)
      else (records[token := Record(records[token].value, false)], Yielded(records[token].value))
  }

  function After<V>(calls: seq<Call<V>>): map<nat, Record<V>> {
    if calls == [] then map[] else Do(After(calls[..|calls| - 1]), calls[|calls| - 1]).0
  }

  function AnswerOf<V>(calls: seq<Call<V>>, i: nat): Answer<V>
    requires i < |calls|
  {
    Do(After(calls[..i]), calls[i]).1
  }

  predicate Yields<V(==)>(calls: seq<Call<V>>, i: nat, token: nat)
    requires i < |calls|
  {
    calls[i].Take? && calls[i].token == token && AnswerOf(calls, i).Yielded?
  }

  lemma AfterStep<V>(calls: seq<Call<V>>, i: nat)
    requires i < |calls|
    ensures After(calls[..i + 1]) == Do(After(calls[..i]), calls[i]).0
  {
    assert calls[..i + 1][..i] == calls[..i];
  }

  /** Once consumed, a token stays consumed. */
  lemma {:induction false} ConsumedStays<V>(calls: seq<Call<V>>, i: nat, j: nat, token: nat)
    requires i <= j <= |calls| && token in After(calls[..i]) && !After(calls[..i])[token].available
    ensures token in After(calls[..j]) && !After(calls[..j])[token].available
    decreases j - i
  {
    if i < j {
      ConsumedStays(calls, i, j - 1, token);
      AfterStep(calls, j - 1);
    }
  }

  /** Over any sequence of calls a token yields at most once. */
  lemma YieldsAtMostOnce<V>(calls: seq<Call<V>>, i: nat, j: nat, token: nat)
    requires i < |calls| && j < |calls| && Yields(calls, i, token) && Yields(calls, j, token)
    ensures i == j
  {
    if i < j {
      AfterStep(calls, i);
      ConsumedStays(calls, i + 1, j, token);
    } else if j < i {
      AfterStep(calls, j);
      ConsumedStays(calls, j + 1, i, token);
    }
  }

  /** A registered value is the first one given for its token, and it never changes. */
  lemma {:induction false} HeldIsFirst<V>(calls: seq<Call<V>>, n: nat, token: nat) returns (k: nat)
    requires n <= |calls| && token in After(calls[..n])
    ensures k < n && calls[k].Add? && calls[k].token == token && After(calls[..n])[token].value == calls[k].value
    ensures token !in After(calls[..k])
  {
    AfterStep(calls, n - 1);
    if token in After(calls[..n - 1]) {
      k := HeldIsFirst(calls, n - 1, token);
    } else {
      k := n - 1;
    }
  }

  /** What a token yields is what was registered for it first, before. */
  lemma YieldsItsRegistration<V>(calls: seq<Call<V>>, i: nat, token: nat) returns (k: nat)
    requires i < |calls| && Yields(calls, i, token)
    ensures k < i && calls[k].Add? && calls[k].token == token && AnswerOf(calls, i) == Yielded(calls[k].value)
    ensures AnswerOf(calls, k) == Done
  {
    k := HeldIsFirst(calls, i, token);
  }

  /** The first attempt to consume a token that was registered before succeeds. */
  lemma {:induction false} FirstTakeSucceeds<V>(calls: seq<Call<V>>, i: nat, token: nat)
    requires i < |calls| && calls[i] == Take(token)
    requires forall j :: 0 <= j < i ==> calls[j] != Take(token)
    requires exists k :: 0 <= k < i && calls[k].Add? && calls[k].token == token
    ensures AnswerOf(calls, i).Yielded?
  {
    AvailableUntilTaken(calls, i, token);
  }

  lemma {:induction false} AvailableUntilTaken<V>(calls: seq<Call<V>>, n: nat, token: nat)
    requires n <= |calls| && forall j :: 0 <= j < n ==> calls[j] != Take(token)
    ensures token in After(calls[..n]) <==> exists k :: 0 <= k < n && calls[k].Add? && calls[k].token == token
    ensures token in After(calls[..n]) ==> After(calls[..n])[token].available
  {
    if n > 0 {
      AvailableUntilTaken(calls, n - 1, token);
      AfterStep(calls, n - 1);
    }
  }

  /** A token is held from its first registration on, and available until it has yielded. */
  lemma {:induction false} HeldExactly<V>(calls: seq<Call<V>>, n: nat, token: nat)
    requires n <= |calls|
    ensures token in After(calls[..n]) <==> exists k :: 0 <= k < n && calls[k].Add? && calls[k].token == token
    ensures token in After(calls[..n]) ==> (After(calls[..n])[token].available <==> forall j :: 0 <= j < n ==> !Yields(calls, j, token))
    ensures token !in After(calls[..n]) ==> forall j :: 0 <= j < n ==> !Yields(calls, j, token)
  {
    if n > 0 {
      HeldExactly(calls, n - 1, token);
      AfterStep(calls, n - 1);
      var before, c := After(calls[..n - 1]), calls[n - 1];
      assert Yields(calls, n - 1, token) <==> c == Take(token) && token in before && before[token].available;
    }
  }

  /** Every answer over any sequence of calls: a registration is accepted exactly when it is the first of its token, and
      a token is yielded exactly when it was registered and has not been yielded yet. */
  lemma AnswersExactly<V>(calls: seq<Call<V>>, i: nat)
    requires i < |calls|
    ensures calls[i].Add? ==>
              AnswerOf(calls, i) ==
                if exists k :: 0 <= k < i && calls[k].Add? && calls[k].token == calls[i].token then Refused else Done
    ensures calls[i].Take? ==>
              (if (exists k :: 0 <= k < i && calls[k].Add? && calls[k].token == calls[i].token) &&
                  (forall j :: 0 <= j < i ==> !Yields(calls, j, calls[i].token))
               then AnswerOf(calls, i).Yielded? else AnswerOf(calls, i) == Refused)
  {
    HeldExactly(calls, i, calls[i].token);
  }
}
