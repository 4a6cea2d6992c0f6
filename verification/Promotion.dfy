/**
 Sessions, promotion and verification of a release manifest as a state machine over
 the disk. Every call is split at the points where another process may act or an
 operation may fail, so a run ranges over all interleavings of this process with
 staging discards and rival promotions, with failures and process losses anywhere.
 */
module Promotion {
  import opened Common
  import opened PromotionDisk

  /** What happens at one preemption point of a call. */
  datatype Event = Quiet | StagingDiscarded | RivalLinked | Fault

  /** The three preemption points of an inspection: before each lstat and before the reads. */
  datatype Pauses = Pauses(first: Event, second: Event, third: Event)
  {
    predicate Faulty() { first.Fault? || second.Fault? || third.Fault? }
  }

  const NO_PAUSES := Pauses(Quiet, Quiet, Quiet)

  datatype Schedule = Schedule(check: Pauses, link: Event, confirm: Event, finish: Pauses)

  const NO_DISTURBANCE := Schedule(NO_PAUSES, Quiet, Quiet, NO_PAUSES)

  /** The digest is left open; expected is the 64-digit text the caller asks for. */
  datatype Config = Config(sha256: seq<byte> -> string, expected: string, rootsDiffer: bool)

  datatype Mode = Ready | LinkedPending | Transferred

  datatype Session = Session(mode: Mode, directories: Directories,
                             sourceManifest: Option<Identity>, destinationManifest: Option<Identity>,
                             bytes: seq<byte>)

  /** The disk with a history of the links made by this process and by others. */
  datatype World = World(disk: Disk, ownLinks: nat, rivalLinks: nat)

  datatype Exit =
    | Promoted(resumed: bool, effectIssued: bool, stagingRetained: bool, bytes: seq<byte>)
    | Failed(effectIssued: bool, cleanupConfirmed: bool, reentryRequired: bool)

  datatype Entry = Entry(token: nat, exit: Exit, linked: bool)

  datatype State = State(world: World, sessions: map<nat, Session>, completed: map<nat, Session>,
                         nextToken: nat, log: seq<Entry>)

  // ---------------------------------------------------------------- steps

  function Disturb(w: World, e: Event): (r: World)
    requires w.disk.Bound()
    ensures r.disk.Bound()
  {
    match e
    case StagingDiscarded => w.(disk := UnlinkSource(w.disk))
    case RivalLinked =>
      var linked := HardLink(w.disk);
      if linked.None? then w else w.(disk := linked.value, rivalLinks := w.rivalLinks + 1)
    case _ => w
  }

  predicate SizeAccepted(id: Option<Identity>) {
    id.Some? ==> 1 <= id.value.size <= MAXIMUM_MANIFEST_BYTES
  }

  /** A file observed as id still holds exactly the given bytes, and they have the expected digest. */
  predicate FileVerified(c: Config, d: Disk, p: Place, id: Identity, bytes: seq<byte>)
    requires d.Bound()
  {
    StableRead(d, p, id) == Some(bytes) && c.sha256(bytes) == c.expected
  }

  /** The decision of inspectSession once both names were observed as src and dst. */
  function Classify(c: Config, d: Disk, src: Option<Identity>, dst: Option<Identity>): Option<Session>
    requires d.Bound()
  {
    if !c.rootsDiffer || !SizeAccepted(src) || !SizeAccepted(dst) || (src.None? && dst.None?) then None
    else
      var read := if src.Some? then StableRead(d, Source, src.value) else StableRead(d, Destination, dst.value);
      if read.None? || c.sha256(read.value) != c.expected then None
      else if src.Some? && !FileVerified(c, d, Source, src.value, read.value) then None
      else if dst.Some? && !FileVerified(c, d, Destination, dst.value, read.value) then None
      else if src.Some? && dst.Some? && !SameFileObject(src.value, dst.value) then None
      else Some(Session(if src.None? then Transferred else if dst.Some? then LinkedPending else Ready,
                        d.directories, src, dst, read.value))
  }

  function Inspect(c: Config, w: World, e: Pauses): (r: (World, Option<Session>))
    requires w.disk.Bound()
    ensures r.0.disk.Bound()
  {
    var w1 := Disturb(w, e.first);
    var src := Look(w1.disk, Source);
    var w2 := Disturb(w1, e.second);
    var dst := Look(w2.disk, Destination);
    var w3 := Disturb(w2, e.third);
    (w3, if e.Faulty() then None else Classify(c, w3.disk, src, dst))
  }

  /** verifySession: the observed names must still match what the session's mode recorded. */
  predicate StillMatches(c: Config, d: Disk, s: Session, src: Option<Identity>, dst: Option<Identity>)
    requires d.Bound()
  {
    && SameDirectories(s.directories, d.directories)
    && SizeAccepted(src) && SizeAccepted(dst)
    && (match s.mode
        case Ready => src.Some? && dst.None? && s.sourceManifest == src
        case LinkedPending =>
          src.Some? && dst.Some? && s.sourceManifest == src && s.destinationManifest == dst &&
          SameFileObject(src.value, dst.value)
        case Transferred => src.None? && dst.Some? && s.destinationManifest == dst)
    && (src.Some? ==> FileVerified(c, d, Source, src.value, s.bytes))
    && (dst.Some? ==> FileVerified(c, d, Destination, dst.value, s.bytes))
  }

  function VerifySession(c: Config, w: World, s: Session, e: Pauses): (r: (World, bool))
    requires w.disk.Bound()
    ensures r.0.disk.Bound()
  {
    var w1 := Disturb(w, e.first);
    var src := Look(w1.disk, Source);
    var w2 := Disturb(w1, e.second);
    var dst := Look(w2.disk, Destination);
    var w3 := Disturb(w2, e.third);
    (w3, !e.Faulty() && StillMatches(c, w3.disk, s, src, dst))
  }

  /** The checks made right after the link call. */
  predicate InstallConfirmed(c: Config, d: Disk, s: Session)
    requires d.Bound()
  {
    var src, dst := Look(d, Source), Look(d, Destination);
    && src.Some? && dst.Some? && SizeAccepted(src) && SizeAccepted(dst)
    && s.sourceManifest.Some?
    && SameFileObject(src.value, s.sourceManifest.value) && SameFileObject(src.value, dst.value)
    && FileVerified(c, d, Destination, dst.value, s.bytes)
    && SameDirectories(s.directories, d.directories)
  }

  function BeginStep(c: Config, st: State, e: Pauses): (r: (State, Option<nat>))
    requires st.world.disk.Bound()
    ensures r.0.world.disk.Bound()
  {
    var (w, s) := Inspect(c, st.world, e);
    if s.None? then (st.(world := w), None)
    else (st.(world := w, sessions := st.sessions[st.nextToken := s.value], nextToken := st.nextToken + 1),
          Some(st.nextToken))
  }

  /** A failure before the link leaves nothing behind; one after it demands re-entry. */
  function FailedWith(effect: bool): Exit {
    Failed(effect, !effect, effect)
  }

  /** The link of a ready session: the world after it, whether it linked, and whether it was confirmed. */
  function LinkStep(c: Config, w: World, s: Session, sched: Schedule): (r: (World, bool, bool))
    requires w.disk.Bound()
    ensures r.0.disk.Bound()
  {
    if s.mode != Ready then (w, false, true)
    else
      var w1 := Disturb(w, sched.link);
      var linked := HardLink(w1.disk);
      if sched.link.Fault? || linked.None? then (w1, false, false)
      else
        var w2 := Disturb(w1.(disk := linked.value, ownLinks := w1.ownLinks + 1), sched.confirm);
        (w2, true, !sched.confirm.Fault? && InstallConfirmed(c, w2.disk, s))
  }

  function FinishStep(c: Config, st: State, token: nat, s: Session, effect: bool, e: Pauses): (r: (State, Exit))
    requires st.world.disk.Bound()
    ensures r.0.world.disk.Bound()
  {
    var (w, final) := Inspect(c, st.world, e);
    if final.None? || final.value.mode == Ready || final.value.destinationManifest.None? then
      (st.(world := w), FailedWith(effect))
    else
      (st.(world := w, sessions := st.sessions - {token}, completed := st.completed[token := final.value]),
       Promoted(s.mode != Ready, effect, final.value.mode == LinkedPending, s.bytes))
  }

  function PromoteCall(c: Config, st: State, token: nat, sched: Schedule): (r: (State, Exit))
    requires st.world.disk.Bound()
    ensures r.0.world.disk.Bound()
  {
    if token !in st.sessions then (st, FailedWith(false))
    else
      var s := st.sessions[token];
      var (w1, verified) := VerifySession(c, st.world, s, sched.check);
      if !verified then (st.(world := w1), FailedWith(false))
      else
        var (w2, effect, confirmed) := LinkStep(c, w1, s, sched);
        if !confirmed then (st.(world := w2), FailedWith(effect))
        else FinishStep(c, st.(world := w2), token, s, effect, sched.finish)
  }

  /** A promote call, recorded together with whether the disk gained a link by it. */
  function PromoteStep(c: Config, st: State, token: nat, sched: Schedule): (r: (State, Exit))
    requires st.world.disk.Bound()
    ensures r.0.world.disk.Bound()
  {
    var (after, exit) := PromoteCall(c, st, token, sched);
    (after.(log := after.log + [Entry(token, exit, after.world.ownLinks > st.world.ownLinks)]), exit)
  }

  function VerifyStep(c: Config, st: State, token: nat, e: Pauses): (r: (State, bool))
    requires st.world.disk.Bound()
    ensures r.0.world.disk.Bound()
  {
    if token !in st.completed then (st, false)
    else
      var s := st.completed[token];
      var (w, current) := Inspect(c, st.world, e);
      (st.(world := w),
       current.Some? && current.value.mode != Ready &&
       current.value.destinationManifest.Some? && current.value.destinationManifest == s.destinationManifest &&
       SameDirectories(current.value.directories, s.directories))
  }

  datatype Action =
    | Begin(pauses: Pauses)
    | Promote(token: nat, schedule: Schedule)
    | Verify(token: nat, pauses: Pauses)
    | ProcessLost
    | Outside(event: Event)

  function Step(c: Config, st: State, a: Action): (r: State)
    requires st.world.disk.Bound()
    ensures r.world.disk.Bound()
  {
    match a
    case Begin(e) => BeginStep(c, st, e).0
    case Promote(token, sched) => PromoteStep(c, st, token, sched).0
    case Verify(token, e) => VerifyStep(c, st, token, e).0
    case ProcessLost => st.(sessions := map[], completed := map[])
    case Outside(e) => st.(world := Disturb(st.world, e))
  }

  function Run(c: Config, st: State, actions: seq<Action>): (r: State)
    requires st.world.disk.Bound()
    ensures r.world.disk.Bound()
    decreases |actions|
  {
    if actions == [] then st else Run(c, Step(c, st, actions[0]), actions[1..])
  }
}
