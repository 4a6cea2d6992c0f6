/**
 Collecting recovery identities out of untrusted result records: what is salvaged from one
 record, and what a bounded list over many records holds.
 */
module RecoveryIds {
  import opened Common

  const MAXIMUM_RECOVERY_IDS := 128

  /** One property of a record as the runner can observe it; Other covers accessors and other types. */
  datatype Field = Absent | Null | Text(text: string) | Other

  datatype ListField = NoList | NotPlain | Items(items: seq<Field>)

  /** The recovery grammar of one kind of identity is left open. */
  type Grammar = string -> bool

  predicate CanonicalField(f: Field, g: Grammar) {
    f.Text? && g(f.text)
  }

  // ------------------------------------------------------------ first occurrences

  /** [...new Set(ids)]: the first occurrence of each element, in order. */
  function Unique(s: seq<string>): (r: seq<string>)
    ensures |r| <= |s|
    ensures forall x :: x in r <==> x in s
    ensures forall i, j :: 0 <= i < j < |r| ==> r[i] != r[j]
  {
    if s == [] then []
    else
      var before := Unique(s[..|s| - 1]);
      var last := s[|s| - 1];
      assert s == s[..|s| - 1] + [last];
      if last in before then before else before + [last]
  }

  function Bounded(s: seq<string>): (r: seq<string>)
    ensures |r| <= MAXIMUM_RECOVERY_IDS && r <= s
  {
    if |s| <= MAXIMUM_RECOVERY_IDS then s else s[..MAXIMUM_RECOVERY_IDS]
  }

  // ------------------------------------------------------------ one record

  datatype Salvage = Salvage(ids: seq<string>, ambiguous: bool)

  /** salvageSignedRunnerNullableRecovery. */
  function SalvageNullable(f: Field, g: Grammar): Salvage {
    if f == Null then Salvage([], false)
    else if CanonicalField(f, g) then Salvage([f.text], false)
    else Salvage([], true)
  }

  function CanonicalItems(items: seq<Field>, g: Grammar): (r: seq<string>)
    ensures forall f :: f in items && CanonicalField(f, g) ==> f.text in r
  {
    if items == [] then []
    else
      var before := CanonicalItems(items[..|items| - 1], g);
      var last := items[|items| - 1];
      assert items == items[..|items| - 1] + [last];
      if CanonicalField(last, g) then before + [last.text] else before
  }

  predicate Distinct(items: seq<Field>) {
    forall i, j :: 0 <= i < j < |items| ==> items[i] != items[j]
  }

  /** The singular field agrees with the collected list: alone it names the only identity. */
  predicate SingularAgrees(singular: Field, ids: seq<string>) {
    if |ids| == 1 then singular == Text(ids[0]) else singular == Null
  }

  /** The identities of a singular and a plural field, before the bound. */
  function PairIds(singular: Field, plural: ListField, g: Grammar): seq<string> {
    (if CanonicalField(singular, g) then [singular.text] else []) +
    (if plural.Items? && |plural.items| <= MAXIMUM_RECOVERY_IDS then CanonicalItems(plural.items, g) else [])
  }

  /** salvageSignedRunnerRecoveryPair. */
  function SalvagePair(singular: Field, plural: ListField, g: Grammar): Salvage {
    var unique := Unique(PairIds(singular, plural, g));
    var ids := Bounded(unique);
    var unread :=
      || singular == Absent || singular == Other || (singular.Text? && !g(singular.text))
      || !plural.Items? || |plural.items| > MAXIMUM_RECOVERY_IDS
      || (exists i :: 0 <= i < |plural.items| && !CanonicalField(plural.items[i], g)) || !Distinct(plural.items);
    Salvage(ids, unread || |unique| > MAXIMUM_RECOVERY_IDS || !SingularAgrees(singular, ids))
  }

  /** A record as the collectors see it for one kind: a singular field, and a list field if there is one. */
  datatype Source = Source(singular: Field, plural: ListField, hasPlural: bool)

  /** The identity is written somewhere in the record. */
  ghost predicate Mentions(s: Source, id: string) {
    s.singular == Text(id) || (s.hasPlural && s.plural.Items? && Text(id) in s.plural.items)
  }

  /** One step of boundedRecoveryIds; a record without the fields is passed over. */
  function SalvageSource(s: Source, g: Grammar): Salvage {
    if s.singular == Absent && (!s.hasPlural || s.plural == NoList) then Salvage([], false)
    else if s.hasPlural then SalvagePair(s.singular, s.plural, g)
    else SalvageNullable(s.singular, g)
  }

  /** Salvaging one record keeps every canonical identity it mentions, or says it is ambiguous. */
  lemma SalvageKeepsMentioned(s: Source, g: Grammar, id: string)
    requires Mentions(s, id) && g(id)
    ensures id in SalvageSource(s, g).ids || SalvageSource(s, g).ambiguous
  {
    if s.hasPlural && s.plural.Items? && Text(id) in s.plural.items && |s.plural.items| <= MAXIMUM_RECOVERY_IDS {
      assert CanonicalField(Text(id), g);
      assert id in CanonicalItems(s.plural.items, g);
    }
    if s.hasPlural && !SalvageSource(s, g).ambiguous {
      assert id in PairIds(s.singular, s.plural, g);
    }
  }

  // ------------------------------------------------------------ many records

  function Collected(sources: seq<Source>, g: Grammar): seq<string> {
    if sources == [] then []
    else Collected(sources[..|sources| - 1], g) + SalvageSource(sources[|sources| - 1], g).ids
  }

  lemma CollectedStep(sources: seq<Source>, i: nat, g: Grammar)
    requires i < |sources|
    ensures Collected(sources[..i + 1], g) == Collected(sources[..i], g) + SalvageSource(sources[i], g).ids
  {
    assert sources[..i + 1][..i] == sources[..i];
  }

  predicate AnyAmbiguous(sources: seq<Source>, g: Grammar) {
    exists k :: 0 <= k < |sources| && SalvageSource(sources[k], g).ambiguous
  }

  /** The collected identities of one kind, as results carry them. */
  function Projection(sources: seq<Source>, g: Grammar): Salvage {
    var unique := Unique(Collected(sources, g));
    Salvage(Bounded(unique), |unique| > MAXIMUM_RECOVERY_IDS || AnyAmbiguous(sources, g))
  }

  /** boundedRecoveryIds, and one kind of aggregateRouteRecovery. */
  method BoundedRecoveryIds(sources: seq<Source>, g: Grammar) returns (r: Salvage)
    ensures r == Projection(sources, g)
  {
    hide SalvageSource;
    var found: seq<string> := [];
    var ambiguous := false;
    for i := 0 to |sources|
      invariant found == Collected(sources[..i], g)
      invariant ambiguous <==> exists k :: 0 <= k < i && SalvageSource(sources[k], g).ambiguous
    {
      CollectedStep(sources, i, g);
      var recovered := SalvageSource(sources[i], g);
      found := found + recovered.ids;
      if recovered.ambiguous { ambiguous := true; }
    }
    assert sources[..|sources|] == sources;
    var unique := Unique(found);
    if |unique| > MAXIMUM_RECOVERY_IDS { ambiguous := true; }
    r := Salvage(Bounded(unique), ambiguous);
  }

  lemma {:induction false} CollectedHolds(sources: seq<Source>, g: Grammar, s: Source, id: string)
    requires s in sources && id in SalvageSource(s, g).ids
    ensures id in Collected(sources, g)
  {
    var last := sources[|sources| - 1];
    assert sources == sources[..|sources| - 1] + [last];
    if s != last { CollectedHolds(sources[..|sources| - 1], g, s, id); }
  }

  lemma {:induction false} CollectedOnlyMentioned(sources: seq<Source>, g: Grammar, id: string)
    requires id in Collected(sources, g)
    ensures g(id) && exists s :: s in sources && Mentions(s, id)
  {
    var last := sources[|sources| - 1];
    var before := sources[..|sources| - 1];
    if id in Collected(before, g) {
      CollectedOnlyMentioned(before, g, id);
      var s :| s in before && Mentions(s, id);
      assert s in sources;
    } else {
      assert id in SalvageSource(last, g).ids;
      SalvagedOnlyMentioned(last, g, id);
      assert last in sources;
    }
  }

  lemma SalvagedOnlyMentioned(s: Source, g: Grammar, id: string)
    requires id in SalvageSource(s, g).ids
    ensures g(id) && Mentions(s, id)
  {
    if s.hasPlural {
      assert id in PairIds(s.singular, s.plural, g);
      if !(CanonicalField(s.singular, g) && s.singular.text == id) {
        CanonicalItemsMentioned(s.plural.items, g, id);
      }
    }
  }

  lemma CanonicalItemsMentioned(items: seq<Field>, g: Grammar, id: string)
    requires id in CanonicalItems(items, g)
    ensures g(id) && Text(id) in items
  {
    if items != [] {
      assert items == items[..|items| - 1] + [items[|items| - 1]];
      if id in CanonicalItems(items[..|items| - 1], g) { CanonicalItemsMentioned(items[..|items| - 1], g, id); }
    }
  }

  /** Recovery identities are never silently lost: unless the ambiguous flag is set, the list holds
      exactly the canonical identities that the records mention; it is always duplicate-free and
      at most 128 long. */
  lemma NeverSilentlyLost(sources: seq<Source>, g: Grammar)
    ensures var p := Projection(sources, g);
            && |p.ids| <= MAXIMUM_RECOVERY_IDS
            && (forall i, j :: 0 <= i < j < |p.ids| ==> p.ids[i] != p.ids[j])
            && (forall id :: id in p.ids ==> g(id) && exists s :: s in sources && Mentions(s, id))
            && (!p.ambiguous ==> forall s, id :: s in sources && Mentions(s, id) && g(id) ==> id in p.ids)
  {
    var p := Projection(sources, g);
    forall id | id in p.ids ensures g(id) && exists s :: s in sources && Mentions(s, id) {
      assert id in Unique(Collected(sources, g));
      CollectedOnlyMentioned(sources, g, id);
    }
    if !p.ambiguous {
      forall s, id | s in sources && Mentions(s, id) && g(id) ensures id in p.ids {
        SalvageKeepsMentioned(s, g, id);
        CollectedHolds(sources, g, s, id);
      }
    }
  }

  // ------------------------------------------------------------ when a list is ambiguous

  /** The fields of one kind leave no doubt: there are none, or they hold canonical identities and agree. A single
      identity stands in the singular field, several stand only in the list. */
  predicate Clear(s: Source, g: Grammar) {
    if !s.hasPlural then s.singular in {Absent, Null} || (s.singular.Text? && g(s.singular.text))
    else
      || (s.singular == Absent && s.plural == NoList)
      || (&& s.plural.Items? && |s.plural.items| <= 128 && Distinct(s.plural.items)
          && (forall f :: f in s.plural.items ==> f.Text? && g(f.text))
          && (if s.singular == Null then |s.plural.items| != 1
              else s.singular.Text? && g(s.singular.text) && (s.plural.items == [] || s.plural.items == [s.singular])))
  }

  lemma AmbiguousUnlessClear(s: Source, g: Grammar)
    ensures SalvageSource(s, g).ambiguous <==> !Clear(s, g)
  {
    hide PairIds, Unique, NamesIn;
    if s.hasPlural && s.plural.Items? && |s.plural.items| <= 128 && Distinct(s.plural.items) &&
       (s.singular == Null || CanonicalField(s.singular, g)) &&
       (forall f :: f in s.plural.items ==> CanonicalField(f, g)) {
      assert forall i :: 0 <= i < |s.plural.items| ==> s.plural.items[i] in s.plural.items;
      if s.singular == Null { ListedIds(s.plural.items, g); }
      else if |s.plural.items| <= 1 { SingularIds(s.singular, s.plural.items, g); }
      else { ManyIds(s.singular, s.plural.items, g); }
    }
  }

  function NamesIn(items: seq<Field>): (r: seq<string>)
    requires forall f :: f in items ==> f.Text?
    ensures |r| == |items| && forall i :: 0 <= i < |r| ==> items[i] == Text(r[i])
  {
    if items == [] then []
    else
      var last := items[|items| - 1];
      assert items == items[..|items| - 1] + [last];
      NamesIn(items[..|items| - 1]) + [last.text]
  }

  /** The identities of canonical fields: those of the list alone, and with a singular one. */
  lemma ListedIds(items: seq<Field>, g: Grammar)
    requires |items| <= 128 && Distinct(items) && forall f :: f in items ==> f.Text? && g(f.text)
    ensures Unique(PairIds(Null, Items(items), g)) == NamesIn(items)
  {
    hide Unique, NamesIn, CanonicalItems, Distinct;
    CanonicalNames(items, g);
    assert PairIds(Null, Items(items), g) == [] + NamesIn(items) == NamesIn(items);
    DifferentNames(items);
    UniqueOfDistinct(NamesIn(items));
  }

  lemma DifferentNames(items: seq<Field>)
    requires Distinct(items) && forall f :: f in items ==> f.Text?
    ensures forall i, j :: 0 <= i < j < |items| ==> NamesIn(items)[i] != NamesIn(items)[j]
  {
    hide NamesIn;
    var t := NamesIn(items);
    forall i, j | 0 <= i < j < |items| ensures t[i] != t[j] {
      assert items[i] == Text(t[i]) && items[j] == Text(t[j]);
    }
  }

  lemma SingularIds(singular: Field, items: seq<Field>, g: Grammar)
    requires CanonicalField(singular, g) && |items| <= 1 && forall f :: f in items ==> f.Text? && g(f.text)
    ensures Unique(PairIds(singular, Items(items), g)) ==
              if items == [] || items[0] == singular then [singular.text] else [singular.text, items[0].text]
  {
    CanonicalNames(items, g);
    var all := PairIds(singular, Items(items), g);
    assert all == [singular.text] + NamesIn(items);
    UniqueOfDistinct([singular.text]);
    if items != [] {
      assert all[..1] == [singular.text];
    } else {
      assert all == [singular.text];
    }
  }

  lemma ManyIds(singular: Field, items: seq<Field>, g: Grammar)
    requires 1 < |items| <= 128 && Distinct(items) && forall f :: f in items ==> f.Text? && g(f.text)
    ensures |Unique(PairIds(singular, Items(items), g))| > 1
  {
    hide Unique, NamesIn, CanonicalItems, Distinct;
    CanonicalNames(items, g);
    DifferentNames(items);
    var all, t := PairIds(singular, Items(items), g), NamesIn(items);
    var u := Unique(all);
    assert t[0] in all && t[1] in all;
    assert t[0] in u && t[1] in u && t[0] != t[1];
  }

  lemma {:induction false} CanonicalNames(items: seq<Field>, g: Grammar)
    requires forall f :: f in items ==> f.Text? && g(f.text)
    ensures CanonicalItems(items, g) == NamesIn(items)
  {
    if items != [] {
      var before, last := items[..|items| - 1], items[|items| - 1];
      assert items == before + [last];
      assert last in items && forall f :: f in before ==> f in items;
      CanonicalNames(before, g);
    }
  }

  lemma {:induction false} UniqueOfDistinct(s: seq<string>)
    requires forall i, j :: 0 <= i < j < |s| ==> s[i] != s[j]
    ensures Unique(s) == s
  {
    if s != [] {
      assert s == s[..|s| - 1] + [s[|s| - 1]];
      UniqueOfDistinct(s[..|s| - 1]);
    }
  }

  /** All canonical identities that the records mention fit into this list. */
  ghost predicate HoldsAll(list: seq<string>, sources: seq<Source>, g: Grammar) {
    |list| <= 128 && forall s, id :: s in sources && Mentions(s, id) && g(id) ==> id in list
  }

  /** The ambiguous flag is set exactly when some record leaves a doubt, or more than 128 identities are mentioned. */
  lemma AmbiguousExactlyWhen(sources: seq<Source>, g: Grammar)
    ensures Projection(sources, g).ambiguous <==>
              !((forall s :: s in sources ==> Clear(s, g)) && exists list :: HoldsAll(list, sources, g))
  {
    hide SalvageSource, Clear;
    var p := Projection(sources, g);
    forall s ensures SalvageSource(s, g).ambiguous <==> !Clear(s, g) { AmbiguousUnlessClear(s, g); }
    if !p.ambiguous {
      NeverSilentlyLost(sources, g);
      assert HoldsAll(p.ids, sources, g);
      forall s | s in sources ensures Clear(s, g) {
        var k :| 0 <= k < |sources| && sources[k] == s;
      }
    }
    if list :| HoldsAll(list, sources, g) {
      var unique := Unique(Collected(sources, g));
      forall id | id in unique ensures id in list { CollectedOnlyMentioned(sources, g, id); }
      NoMoreThan(unique, list);
    }
  }
}
