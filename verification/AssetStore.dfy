/**
 The official asset store as processes see it: a base file, immutable generation files and temporary files in
 one directory, a lock, and any number of processes whose file operations interleave and that may stop at any
 point. What was committed is kept beside the directory, for the specification only; no step reads it.
 */
module AssetStore {
  import opened Common
  import opened Decimal
  import opened AssetNames
  import opened AssetGovernance

  datatype Entry = Partial | Json(record: AssetRecord)

  type Directory = map<string, Entry>

  datatype Commit = Commit(record: AssetRecord, author: Option<nat>)

  /** How far a process is with one decision; next is the record that it wants to publish. */
  datatype Phase =
    | Idle
    | Decided(expected: nat, next: AssetRecord)     // read and decided, without the lock
    | Locked(expected: nat, next: AssetRecord)
    | Checked(next: AssetRecord)                    // the expected revision is still current
    | TempOpen(next: AssetRecord)
    | TempFull(next: AssetRecord)
    | Cleaning(next: AssetRecord, link: LinkResult)   // the link was attempted, the temporary file is still there
    | Finished(outcome: Outcome)                    // still under the lock

  datatype LinkResult = Linked | Existed | Broke

  /** How the operation under the lock ended; Failed is a thrown error. */
  datatype Outcome = Updated | Conflict | Failed(linked: bool)

  function OutcomeOf(link: LinkResult): Outcome {
    match link case Linked => Updated case Existed => Conflict case Broke => Failed(false)
  }

  datatype State = State(prefix: string, base: AssetRecord, dir: Directory, holder: Option<nat>,
                         phases: map<nat, Phase>, history: seq<Commit>)

  /** One file operation of one process. A listing is what readdir returns, in any order. */
  datatype Action =
    | Decide(input: DecisionInput, listing: seq<string>)
    | Acquire
    | Abandon           // the lock was not granted
    | Check(listing: seq<string>)
    | OpenTemp
    | FillTemp
    | Link
    | FailLink          // linkSync fails for a reason other than an existing name
    | RemoveTemp
    | Fail              // any other operation under the lock throws; what is on the disk stays
    | Release
    | Crash

  datatype Event = Event(pid: nat, action: Action)

  function PhaseOf(s: State, pid: nat): Phase {
    if pid in s.phases then s.phases[pid] else Idle
  }

  // ------------------------------------------------------------ reading

  /** The body of the scan loop; None is the thrown error. */
  function ScanName(prefix: string, name: string, current: AssetRecord, dir: Directory): Option<AssetRecord> {
    if !GenerationLike(prefix, name) then Some(current)
    else if !TwelveDigits(RevisionText(prefix, name)) then None
    else if name !in dir || dir[name].Partial? || dir[name].record.recordRevision != Value(RevisionText(prefix, name)) then None
    else if dir[name].record.recordRevision > current.recordRevision then Some(dir[name].record)
    else Some(current)
  }

  function Scan(prefix: string, listing: seq<string>, current: AssetRecord, dir: Directory): Option<AssetRecord> {
    if listing == [] then Some(current)
    else
      var front := Scan(prefix, listing[..|listing| - 1], current, dir);
      if front.None? then None else ScanName(prefix, listing[|listing| - 1], front.value, dir)
  }

  /** read, over one directory listing. */
  method Read(prefix: string, listing: seq<string>, base: AssetRecord, dir: Directory) returns (r: Option<AssetRecord>)
    ensures r == Scan(prefix, listing, base, dir)
  {
    hide ScanName;
    var current := base;
    assert listing[..0] == [];
    for i := 0 to |listing|
      invariant Scan(prefix, listing[..i], base, dir) == Some(current)
    {
      assert listing[..i + 1][..i] == listing[..i];
      var next := ScanName(prefix, listing[i], current, dir);
      if next.None? {
        ScanStops(prefix, listing, i + 1, base, dir);
        return None;
      }
      current := next.value;
    }
    assert listing[..|listing|] == listing;
    r := Some(current);
  }

  lemma {:induction false} ScanStops(prefix: string, listing: seq<string>, i: nat, base: AssetRecord, dir: Directory)
    requires i <= |listing| && Scan(prefix, listing[..i], base, dir).None?
    ensures Scan(prefix, listing, base, dir).None?
    decreases |listing| - i
  {
    hide ScanName;
    if i < |listing| {
      assert listing[..i + 1][..i] == listing[..i];
      ScanStops(prefix, listing, i + 1, base, dir);
    } else {
      assert listing[..i] == listing;
    }
  }

  /** A name that looks like a generation and does not hold the record of its revision. */
  predicate Malformed(prefix: string, name: string, dir: Directory) {
    GenerationLike(prefix, name) &&
    (!TwelveDigits(RevisionText(prefix, name)) || name !in dir || dir[name].Partial? ||
     dir[name].record.recordRevision != Value(RevisionText(prefix, name)))
  }

  /** Over any listing of any directory a scan throws exactly when a listed generation is malformed, and otherwise finds
      the newest record; the base record stays when no listed one is newer. */
  lemma {:induction false} ScanIsNewest(prefix: string, listing: seq<string>, base: AssetRecord, dir: Directory)
    ensures var r := Scan(prefix, listing, base, dir);
            && (r.None? <==> exists name :: name in listing && Malformed(prefix, name, dir))
            && (r.Some? ==>
                  && (r.value == base || (r.value.recordRevision > base.recordRevision &&
                                          exists name :: name in listing && name in dir && dir[name] == Json(r.value)))
                  && (forall name :: name in listing && GenerationLike(prefix, name) ==>
                        name in dir && dir[name].Json? && dir[name].record.recordRevision <= r.value.recordRevision))
  {
    hide TwelveDigits, RevisionText, GenerationLike, Value;
    if listing != [] {
      var front, last := listing[..|listing| - 1], listing[|listing| - 1];
      assert listing == front + [last];
      ScanIsNewest(prefix, front, base, dir);
      assert last in listing && forall name :: name in front ==> name in listing;
    }
  }

  /** The listing names the files of the directory. */
  predicate Lists(listing: seq<string>, dir: Directory) {
    (forall name :: name in listing ==> name in dir) && (forall name :: name in dir ==> name in listing)
  }

  // ------------------------------------------------------------ steps

  function At(s: State, pid: nat, phase: Phase): State {
    s.(phases := s.phases[pid := phase])
  }

  predicate Holding(p: Phase) {
    !p.Idle? && !p.Decided?
  }

  function DecideStep(s: State, pid: nat, input: DecisionInput, listing: seq<string>): State {
    var current := Scan(s.prefix, listing, s.base, s.dir);
    if !Lists(listing, s.dir) || current.None? || !Apply(current.value, input).Completed? then s
    else At(s, pid, Decided(current.value.recordRevision, Apply(current.value, input).record))
  }

  function CheckStep(s: State, pid: nat, p: Phase, listing: seq<string>): State
    requires p.Locked?
  {
    var current := Scan(s.prefix, listing, s.base, s.dir);
    if !Lists(listing, s.dir) then s
    else if current.None? then At(s, pid, Finished(Failed(false)))
    else if current.value.recordRevision != p.expected then At(s, pid, Finished(Conflict))
    else At(s, pid, Checked(p.next))
  }

  function OpenStep(s: State, pid: nat, next: AssetRecord): State {
    var temporary := TemporaryName(s.prefix, next.recordRevision, pid);
    if temporary in s.dir then At(s, pid, Finished(Failed(false)))
    else At(s.(dir := s.dir[temporary := Partial]), pid, TempOpen(next))
  }

  function LinkStep(s: State, pid: nat, next: AssetRecord): State {
    var generation := GenerationName(s.prefix, next.recordRevision);
    if generation in s.dir then At(s, pid, Cleaning(next, Existed))
    else At(s.(dir := s.dir[generation := Json(next)], history := s.history + [Commit(next, Some(pid))]),
            pid, Cleaning(next, Linked))
  }

  /** A step that is not possible leaves everything as it is. */
  function Step(s: State, e: Event): State {
    var pid, p := e.pid, PhaseOf(s, e.pid);
    match e.action
    case Decide(input, listing) => if p.Idle? then DecideStep(s, pid, input, listing) else s
    case Acquire => if p.Decided? && s.holder.None? then At(s.(holder := Some(pid)), pid, Locked(p.expected, p.next)) else s
    case Abandon => if p.Decided? then At(s, pid, Idle) else s
    case Check(listing) => if p.Locked? then CheckStep(s, pid, p, listing) else s
    case OpenTemp => if p.Checked? then OpenStep(s, pid, p.next) else s
    case FillTemp =>
      if p.TempOpen? then
        At(s.(dir := s.dir[TemporaryName(s.prefix, p.next.recordRevision, pid) := Json(p.next)]), pid, TempFull(p.next))
      else s
    case Link => if p.TempFull? then LinkStep(s, pid, p.next) else s
    case FailLink => if p.TempFull? then At(s, pid, Cleaning(p.next, Broke)) else s
    case RemoveTemp =>
      if p.Cleaning? then
        At(s.(dir := s.dir - {TemporaryName(s.prefix, p.next.recordRevision, pid)}), pid,
           Finished(OutcomeOf(p.link)))
      else s
    case Fail =>
      if Holding(p) && !p.Finished? then At(s, pid, Finished(Failed(p.Cleaning? && p.link == Linked))) else s
    case Release => if p.Finished? then At(s.(holder := None), pid, Idle) else s
    case Crash => At(if s.holder == Some(pid) then s.(holder := None) else s, pid, Idle)
  }

  function Run(s: State, events: seq<Event>): State {
    if events == [] then s else Step(Run(s, events[..|events| - 1]), events[|events| - 1])
  }

  // ------------------------------------------------------------ invariant

  function Last(s: State): AssetRecord
    requires s.history != []
  {
    s.history[|s.history| - 1].record
  }

  /** The committed records: contiguous revisions, each a permitted successor of the one before. */
  ghost predicate Chain(base: AssetRecord, h: seq<Commit>): (r: bool)
    ensures r ==> h != []
  {
    && h != [] && h[0].record == base
    && (forall k :: 0 <= k < |h| ==> h[k].record.recordRevision == base.recordRevision + k)
    && (forall k :: 0 <= k < |h| - 1 ==> Follows(h[k].record, h[k + 1].record))
  }

  /** A generation name belongs to a committed record. */
  ghost predicate Belongs(prefix: string, h: seq<Commit>, name: string) {
    exists k :: 1 <= k < |h| && name == GenerationName(prefix, h[k].record.recordRevision)
  }

  /** The generation files of the directory are exactly the committed records. */
  ghost predicate Published(prefix: string, dir: Directory, h: seq<Commit>) {
    && (forall k :: 1 <= k < |h| ==>
          var name := GenerationName(prefix, h[k].record.recordRevision);
          name in dir && dir[name] == Json(h[k].record))
    && (forall name :: name in dir && GenerationLike(prefix, name) ==> Belongs(prefix, h, name))
  }

  /** The base file alone is always readable; generations are readable below 10^12. */
  predicate Readable(s: State)
    requires s.history != []
  {
    |s.history| == 1 || Last(s).recordRevision < NAMED_REVISIONS
  }

  /** The decision was made on a committed record, and, once checked, on the last one. */
  ghost predicate PhaseSound(s: State, pid: nat, p: Phase)
    requires s.history != []
  {
    match p
    case Idle => true
    case Decided(expected, next) => DecidedOn(s, expected, next)
    case Locked(expected, next) => DecidedOn(s, expected, next)
    case Checked(next) => Follows(Last(s), next) && Readable(s)
    case TempOpen(next) => Follows(Last(s), next) && Readable(s)
    case TempFull(next) => Follows(Last(s), next) && Readable(s)
    case Cleaning(next, link) => link == Linked ==> Last(s) == next
    case Finished(outcome) => true
  }

  ghost predicate DecidedOn(s: State, expected: nat, next: AssetRecord)
    requires s.history != []
  {
    exists k :: 0 <= k < |s.history| && s.history[k].record.recordRevision == expected && Follows(s.history[k].record, next)
  }

  ghost predicate Phases(s: State)
    requires s.history != []
  {
    forall pid :: pid in s.phases ==>
      PhaseSound(s, pid, s.phases[pid]) && (Holding(s.phases[pid]) ==> s.holder == Some(pid))
  }

  ghost predicate Inv(s: State) {
    Chain(s.base, s.history) && Published(s.prefix, s.dir, s.history) && Phases(s)
  }

  /** A store just created: the base file, and possibly other files, but no generations and no decisions under way. */
  ghost predicate Fresh(s: State) {
    && (forall name :: name in s.dir ==> !GenerationLike(s.prefix, name))
    && s.history == [Commit(s.base, None)] && s.holder.None? && s.phases == map[]
  }

  lemma FreshInv(s: State)
    requires Fresh(s)
    ensures Inv(s)
  {
  }

  // ------------------------------------------------------------ what a scan finds

  /** Every listed generation is readable and no newer than the k-th commit. */
  ghost predicate UpTo(s: State, listing: seq<string>, k: nat) {
    forall j :: 1 <= j < |s.history| && GenerationName(s.prefix, s.history[j].record.recordRevision) in listing ==>
      j <= k && s.history[j].record.recordRevision < NAMED_REVISIONS
  }

  /** The result of a scan over these names. */
  ghost predicate Found(s: State, listing: seq<string>, r: Option<AssetRecord>)
    requires s.history != []
  {
    if r.None? then !Readable(s)
    else exists k :: 0 <= k < |s.history| && r.value == s.history[k].record && UpTo(s, listing, k)
  }

  /** A scan over the names of committed records finds the newest of them, or stops at one that is too long. */
  lemma {:induction false} ScanFinds(s: State, listing: seq<string>)
    requires Chain(s.base, s.history) && Published(s.prefix, s.dir, s.history)
    requires forall name :: name in listing ==> name in s.dir
    ensures Found(s, listing, Scan(s.prefix, listing, s.base, s.dir))
  {
    hide Follows, ScanName;
    if listing == [] {
      assert s.history[0].record == s.base && UpTo(s, listing, 0);
    } else {
      var front, name := listing[..|listing| - 1], listing[|listing| - 1];
      assert listing == front + [name];
      ScanFinds(s, front);
      var f := Scan(s.prefix, front, s.base, s.dir);
      if f.Some? {
        var k :| 0 <= k < |s.history| && f.value == s.history[k].record && UpTo(s, front, k);
        ScanNext(s, front, name, k);
      }
    }
  }

  lemma ScanNext(s: State, front: seq<string>, name: string, k: nat)
    requires Chain(s.base, s.history) && Published(s.prefix, s.dir, s.history)
    requires name in s.dir && k < |s.history| && UpTo(s, front, k)
    ensures Found(s, front + [name], ScanName(s.prefix, name, s.history[k].record, s.dir))
  {
    hide Follows, GenerationName, GenerationLike, RevisionText, TwelveDigits;
    var r := ScanName(s.prefix, name, s.history[k].record, s.dir);
    if GenerationLike(s.prefix, name) {
      assert Belongs(s.prefix, s.history, name);
      var i :| 1 <= i < |s.history| && name == GenerationName(s.prefix, s.history[i].record.recordRevision);
      GenerationReadBack(s.prefix, s.history[i].record.recordRevision);
      if s.history[i].record.recordRevision < NAMED_REVISIONS {
        UpToNext(s, front, name, k, i);
      }
    } else {
      forall j | 1 <= j < |s.history| ensures GenerationName(s.prefix, s.history[j].record.recordRevision) != name {
        GenerationReadBack(s.prefix, s.history[j].record.recordRevision);
      }
      assert UpTo(s, front + [name], k);
    }
  }

  lemma UpToNext(s: State, front: seq<string>, name: string, k: nat, i: nat)
    requires Chain(s.base, s.history) && UpTo(s, front, k) && 1 <= i < |s.history|
    requires name == GenerationName(s.prefix, s.history[i].record.recordRevision)
    requires s.history[i].record.recordRevision < NAMED_REVISIONS
    ensures UpTo(s, front + [name], if i > k then i else k)
  {
    hide GenerationName;
    var m := if i > k then i else k;
    forall j | 1 <= j < |s.history| && GenerationName(s.prefix, s.history[j].record.recordRevision) in front + [name]
      ensures j <= m && s.history[j].record.recordRevision < NAMED_REVISIONS
    {
      if GenerationName(s.prefix, s.history[j].record.recordRevision) == name {
        NamesInjective(s.prefix, s.history[i].record.recordRevision, s.history[j].record.recordRevision);
      }
    }
  }

  /** Reading returns the newest committed record; it fails exactly when that one has a revision of 10^12 or more. */
  lemma ReadIsRegister(s: State, listing: seq<string>)
    requires Chain(s.base, s.history) && Published(s.prefix, s.dir, s.history) && Lists(listing, s.dir)
    ensures Scan(s.prefix, listing, s.base, s.dir) == if Readable(s) then Some(Last(s)) else None
  {
    hide Follows, GenerationName, Scan;
    ScanFinds(s, listing);
    var n := |s.history| - 1;
    if n >= 1 {
      assert GenerationName(s.prefix, s.history[n].record.recordRevision) in listing;
    }
  }
}
