/** What every run of promotion keeps, and what each exit means. */
module PromotionSafety {
  import opened Common
  import opened PromotionDisk
  import opened Promotion

  /** The staged file as it was first written; otherLinks are names outside the two places. */
  datatype Origin = Origin(ino: nat, identity: Identity, bytes: seq<byte>, directories: Directories,
                           otherLinks: nat, published: bool)

  function Names(d: Disk): nat {
    (if Source in d.names then 1 else 0) + (if Destination in d.names then 1 else 0)
  }

  /** Only the original file object is reachable, unchanged but for its link count and status time. */
  predicate OnlyOriginal(o: Origin, d: Disk) {
    && d.Bound()
    && (forall p :: p in d.names ==> d.names[p] == o.ino)
    && o.ino in d.objects
    && d.objects[o.ino].bytes == o.bytes
    && var id := d.objects[o.ino].identity;
    && id.(nlink := 0, ctime := 0) == o.identity.(nlink := 0, ctime := 0)
    && id.size == |o.bytes|
    && id.nlink == o.otherLinks + Names(d)
    && SameDirectories(o.directories, d.directories)
  }

  /** Safety: the published name is absent or bound to the original object with its bytes,
      and as many links were made as the published name accounts for. */
  predicate Safe(o: Origin, w: World) {
    && OnlyOriginal(o, w.disk)
    && w.ownLinks + w.rivalLinks + (if o.published then 1 else 0) == (if Destination in w.disk.names then 1 else 0)
  }

  /** w2 can follow w1: the published name stays, the staged name never comes back, and the
      file is touched only if one of the two names changed. */
  predicate Follows(o: Origin, w1: World, w2: World) {
    && Safe(o, w1) && Safe(o, w2)
    && (Destination in w1.disk.names ==> Destination in w2.disk.names)
    && (Source in w2.disk.names ==> Source in w1.disk.names)
    && (w1.disk.names.Keys == w2.disk.names.Keys ==> w1.disk.objects[o.ino] == w2.disk.objects[o.ino])
    && w1.ownLinks <= w2.ownLinks && w1.rivalLinks <= w2.rivalLinks
  }

  lemma SafeIsBound(o: Origin, w: World)
    requires Safe(o, w)
    ensures w.disk.Bound()
  {
  }

  lemma FollowsTransitive(o: Origin, w1: World, w2: World, w3: World)
    requires Follows(o, w1, w2) && Follows(o, w2, w3)
    ensures Follows(o, w1, w3)
  {
    if w1.disk.names.Keys == w3.disk.names.Keys {
      forall p: Place ensures p in w1.disk.names <==> p in w2.disk.names {
        if p == Source { assert Source in w3.disk.names <==> Source in w1.disk.names; }
        else { assert Destination in w3.disk.names <==> Destination in w1.disk.names; }
      }
      assert w1.disk.names.Keys == w2.disk.names.Keys;
    }
  }

  lemma LinkFollows(o: Origin, w: World)
    requires Safe(o, w) && HardLink(w.disk).Some?
    ensures Follows(o, w, w.(disk := HardLink(w.disk).value, ownLinks := w.ownLinks + 1))
    ensures Follows(o, w, w.(disk := HardLink(w.disk).value, rivalLinks := w.rivalLinks + 1))
  {
    var d := HardLink(w.disk).value;
    assert d.names == w.disk.names[Destination := o.ino];
    assert Destination in d.names.Keys && Destination !in w.disk.names.Keys;
  }

  lemma DisturbFollows(o: Origin, w: World, e: Event)
    requires Safe(o, w)
    ensures Follows(o, w, Disturb(w, e))
  {
    if e == RivalLinked && HardLink(w.disk).Some? { LinkFollows(o, w); }
    if e == StagingDiscarded && Source in w.disk.names {
      assert Source in w.disk.names.Keys && Source !in UnlinkSource(w.disk).names.Keys;
    }
  }

  /** The worlds at the three preemption points of a call follow each other. */
  lemma ThriceFollows(o: Origin, w: World, e: Pauses) returns (w1: World, w2: World, w3: World)
    requires Safe(o, w)
    ensures Safe(o, w1) && Safe(o, w2) && Safe(o, w3)
    ensures w1 == Disturb(w, e.first) && w2 == Disturb(w1, e.second) && w3 == Disturb(w2, e.third)
    ensures Follows(o, w1, w2) && Follows(o, w2, w3) && Follows(o, w1, w3) && Follows(o, w, w3)
    ensures w3.ownLinks == w.ownLinks
  {
    w1 := Disturb(w, e.first);
    w2 := Disturb(w1, e.second);
    w3 := Disturb(w2, e.third);
    DisturbFollows(o, w, e.first);
    DisturbFollows(o, w1, e.second);
    DisturbFollows(o, w2, e.third);
    FollowsTransitive(o, w, w1, w2);
    FollowsTransitive(o, w, w2, w3);
    FollowsTransitive(o, w1, w2, w3);
  }

  /** An inspection, whatever happens during it, and its reading of the disk. */
  lemma InspectFollows(o: Origin, c: Config, w: World, e: Pauses)
    requires Safe(o, w)
    ensures Follows(o, w, Inspect(c, w, e).0)
    ensures Inspect(c, w, e).0.ownLinks == w.ownLinks
    ensures Inspect(c, w, e).1.Some? ==>
              Recorded(o, Inspect(c, w, e).0, Inspect(c, w, e).1.value) && DigestAccepted(c, o)
  {
    hide Disturb, Classify, Recorded, Follows, Safe;
    SafeIsBound(o, w);
    var w1, w2, w3 := ThriceFollows(o, w, e);
    if Inspect(c, w, e).1.Some? { ClassifyRecords(o, c, w1, w2, w3); }
  }

  /** What an inspection accepts is on the disk at its end, although the names were looked at before. */
  lemma ClassifyRecords(o: Origin, c: Config, w1: World, w2: World, w3: World)
    requires Safe(o, w1) && Safe(o, w2) && Safe(o, w3) && Follows(o, w1, w2) && Follows(o, w2, w3) && Follows(o, w1, w3)
    requires Classify(c, w3.disk, Look(w1.disk, Source), Look(w2.disk, Destination)).Some?
    ensures Recorded(o, w3, Classify(c, w3.disk, Look(w1.disk, Source), Look(w2.disk, Destination)).value)
    ensures DigestAccepted(c, o)
  {
  }

  lemma VerifySessionFollows(o: Origin, c: Config, w: World, s: Session, e: Pauses)
    requires Safe(o, w)
    ensures Follows(o, w, VerifySession(c, w, s, e).0)
    ensures VerifySession(c, w, s, e).0.ownLinks == w.ownLinks
  {
    hide Disturb, StillMatches, Follows, Safe;
    SafeIsBound(o, w);
    var w1, w2, w3 := ThriceFollows(o, w, e);
  }

  /** A session tells the truth about the disk as it is in w. */
  predicate Recorded(o: Origin, w: World, s: Session)
    requires Safe(o, w)
  {
    && s.bytes == o.bytes
    && s.sourceManifest == Look(w.disk, Source)
    && s.destinationManifest == Look(w.disk, Destination)
    && (s.mode == Transferred <==> Source !in w.disk.names)
    && (s.mode != Ready <==> Destination in w.disk.names)
    && SameDirectories(s.directories, w.disk.directories)
  }

  /** A completed session: published for good, and its record is current until the staged name goes. */
  predicate StaysCompleted(o: Origin, w: World, s: Session)
    requires Safe(o, w)
  {
    && s.mode != Ready && s.bytes == o.bytes
    && Destination in w.disk.names
    && s.destinationManifest.Some?
    && s.destinationManifest.value.nlink == o.otherLinks + (if s.mode == LinkedPending then 2 else 1)
    && (s.mode == Transferred ==> Source !in w.disk.names)
    && ((Source in w.disk.names <==> s.mode == LinkedPending) ==>
          s.destinationManifest.value == w.disk.objects[o.ino].identity)
    && SameDirectories(s.directories, w.disk.directories)
  }

  /** The reported effect is the truth about this call, and a failure asks for re-entry exactly with it. */
  predicate Honest(e: Entry) {
    && e.exit.effectIssued == e.linked
    && (e.exit.Failed? ==> e.exit.reentryRequired == e.linked && e.exit.cleanupConfirmed == !e.linked)
    && (e.exit.Promoted? ==> e.exit.resumed == !e.linked)
  }

  ghost predicate LogSound(o: Origin, st: State) {
    && (forall i :: 0 <= i < |st.log| ==> Honest(st.log[i]))
    && (forall i, j :: 0 <= i < j < |st.log| ==> !(st.log[i].linked && st.log[j].linked))
    && (forall i, j :: 0 <= i < j < |st.log| && st.log[i].exit.Promoted? && st.log[j].exit.Promoted? ==>
          st.log[i].token != st.log[j].token)
    && (forall i :: 0 <= i < |st.log| && st.log[i].linked ==> Destination in st.world.disk.names)
    && (forall i :: 0 <= i < |st.log| && st.log[i].exit.Promoted? ==>
          st.log[i].token < st.nextToken && st.log[i].token !in st.sessions && st.log[i].exit.bytes == o.bytes)
  }

  predicate DigestAccepted(c: Config, o: Origin) {
    c.sha256(o.bytes) == c.expected
  }

  ghost predicate Sound(c: Config, o: Origin, st: State) {
    && Safe(o, st.world)
    && (forall t :: t in st.sessions || t in st.completed ==> t < st.nextToken)
    && (forall t :: t in st.sessions ==> st.sessions[t].bytes == o.bytes && DigestAccepted(c, o))
    && (forall t :: t in st.completed ==> StaysCompleted(o, st.world, st.completed[t]))
    && (st.world.ownLinks > 0 ==> DigestAccepted(c, o))
    && LogSound(o, st)
  }

  lemma CompletedFollows(o: Origin, w1: World, w2: World, s: Session)
    requires Follows(o, w1, w2) && StaysCompleted(o, w1, s)
    ensures StaysCompleted(o, w2, s)
  {
    if Source in w2.disk.names <==> s.mode == LinkedPending {
      assert Source in w2.disk.names <==> Source in w1.disk.names;
      assert w1.disk.names.Keys == w2.disk.names.Keys by {
        forall p: Place ensures p in w1.disk.names <==> p in w2.disk.names { if p == Source {} else {} }
      }
    }
  }

  lemma RecordedCompletes(o: Origin, w: World, s: Session)
    requires Safe(o, w) && Recorded(o, w, s) && s.mode != Ready
    ensures StaysCompleted(o, w, s)
  {
  }

  /** The link step keeps safety and reports exactly whether it linked. */
  lemma LinkStepFollows(o: Origin, c: Config, w: World, s: Session, sched: Schedule)
    requires Safe(o, w)
    ensures var (w', linked, ok) := LinkStep(c, w, s, sched);
            && Follows(o, w, w')
            && w'.ownLinks == w.ownLinks + (if linked then 1 else 0)
            && (linked ==> Destination in w'.disk.names && Destination !in w.disk.names)
            && (ok ==> linked == (s.mode == Ready))
  {
    if s.mode == Ready {
      var w1 := Disturb(w, sched.link);
      DisturbFollows(o, w, sched.link);
      if !sched.link.Fault? && HardLink(w1.disk).Some? {
        LinkFollows(o, w1);
        var w2 := w1.(disk := HardLink(w1.disk).value, ownLinks := w1.ownLinks + 1);
        assert w1.ownLinks == w.ownLinks;
        DisturbFollows(o, w2, sched.confirm);
        FollowsTransitive(o, w, w1, w2);
        FollowsTransitive(o, w, w2, Disturb(w2, sched.confirm));
      }
    }
  }

  lemma SoundFollows(c: Config, o: Origin, st: State, w: World)
    requires Sound(c, o, st) && Follows(o, st.world, w) && (w.ownLinks > st.world.ownLinks ==> DigestAccepted(c, o))
    ensures Sound(c, o, st.(world := w))
  {
    forall t | t in st.completed ensures StaysCompleted(o, w, st.completed[t]) {
      CompletedFollows(o, st.world, w, st.completed[t]);
    }
  }

  /** The last part of a promote call: the final inspection and the hand-over of the token. */
  lemma FinishSound(c: Config, o: Origin, st: State, token: nat, s: Session, effect: bool, e: Pauses)
    requires Sound(c, o, st) && token in st.sessions && s == st.sessions[token]
    ensures var (after, exit) := FinishStep(c, st, token, s, effect, e);
            && Sound(c, o, after) && Follows(o, st.world, after.world)
            && after.world.ownLinks == st.world.ownLinks
            && after.log == st.log && after.nextToken == st.nextToken
            && after.sessions.Keys <= st.sessions.Keys
            && exit.effectIssued == effect
            && (exit.Failed? ==> exit == FailedWith(effect))
            && (exit.Promoted? ==>
                  token !in after.sessions && token in after.completed &&
                  exit.resumed == (s.mode != Ready) && exit.bytes == o.bytes)
  {
    hide Inspect, Follows, OnlyOriginal, Recorded, StaysCompleted, Honest;
    SafeIsBound(o, st.world);
    var (w, final) := Inspect(c, st.world, e);
    InspectFollows(o, c, st.world, e);
    SoundFollows(c, o, st, w);
    if final.Some? && final.value.mode != Ready {
      RecordedCompletes(o, w, final.value);
    }
  }

  /** A promote call from a sound state: its world, its exit and its sessions. */
  lemma PromoteCallSound(c: Config, o: Origin, st: State, token: nat, sched: Schedule)
    requires Sound(c, o, st)
    ensures var (after, exit) := PromoteCall(c, st, token, sched);
            && Sound(c, o, after) && Follows(o, st.world, after.world)
            && after.log == st.log && after.nextToken == st.nextToken
            && after.sessions.Keys <= st.sessions.Keys
            && Honest(Entry(token, exit, after.world.ownLinks > st.world.ownLinks))
            && (after.world.ownLinks > st.world.ownLinks ==> Destination !in st.world.disk.names)
            && (exit.Promoted? ==>
                  token in st.sessions && token !in after.sessions && token in after.completed &&
                  exit.bytes == o.bytes)
  {
    if token in st.sessions {
      var s := st.sessions[token];
      var (w1, verified) := VerifySession(c, st.world, s, sched.check);
      VerifySessionFollows(o, c, st.world, s, sched.check);
      if verified {
        var (w2, effect, confirmed) := LinkStep(c, w1, s, sched);
        LinkStepFollows(o, c, w1, s, sched);
        FollowsTransitive(o, st.world, w1, w2);
        SoundFollows(c, o, st, w2);
        if confirmed {
          FinishSound(c, o, st.(world := w2), token, s, effect, sched.finish);
          FollowsTransitive(o, st.world, w2, FinishStep(c, st.(world := w2), token, s, effect, sched.finish).0.world);
        }
      } else {
        SoundFollows(c, o, st, w1);
      }
    }
  }

  /** One more honest entry keeps the log sound, if its link and its token are new. */
  lemma LogExtends(o: Origin, st: State, entry: Entry)
    requires LogSound(o, st) && Honest(entry)
    requires entry.linked ==> Destination in st.world.disk.names
    requires entry.linked ==> forall i :: 0 <= i < |st.log| ==> !st.log[i].linked
    requires entry.exit.Promoted? ==>
      entry.token < st.nextToken && entry.token !in st.sessions && entry.exit.bytes == o.bytes &&
      forall i :: 0 <= i < |st.log| && st.log[i].exit.Promoted? ==> st.log[i].token != entry.token
    ensures LogSound(o, st.(log := st.log + [entry]))
  {
    var log := st.log + [entry];
    assert forall i :: 0 <= i < |log| ==> log[i] == if i < |st.log| then st.log[i] else entry;
  }

  lemma PromoteStepSound(c: Config, o: Origin, st: State, token: nat, sched: Schedule)
    requires Sound(c, o, st)
    ensures Sound(c, o, PromoteStep(c, st, token, sched).0)
  {
    hide PromoteCall, Follows, OnlyOriginal, StaysCompleted, Honest;
    SafeIsBound(o, st.world);
    PromoteCallSound(c, o, st, token, sched);
    var (after, exit) := PromoteCall(c, st, token, sched);
    var entry := Entry(token, exit, after.world.ownLinks > st.world.ownLinks);
    LogExtends(o, after, entry);
  }

  lemma BeginSound(c: Config, o: Origin, st: State, e: Pauses)
    requires Sound(c, o, st)
    ensures Sound(c, o, BeginStep(c, st, e).0)
  {
    hide Inspect, Follows, OnlyOriginal, StaysCompleted, Honest;
    SafeIsBound(o, st.world);
    InspectFollows(o, c, st.world, e);
    SoundFollows(c, o, st, Inspect(c, st.world, e).0);
  }

  lemma VerifySound(c: Config, o: Origin, st: State, token: nat, e: Pauses)
    requires Sound(c, o, st)
    ensures Sound(c, o, VerifyStep(c, st, token, e).0)
  {
    hide Inspect, Follows, OnlyOriginal, LogSound;
    SafeIsBound(o, st.world);
    InspectFollows(o, c, st.world, e);
    SoundFollows(c, o, st, Inspect(c, st.world, e).0);
  }

  lemma LossSound(c: Config, o: Origin, st: State)
    requires Sound(c, o, st)
    ensures Sound(c, o, Step(c, st, ProcessLost))
  {
    hide OnlyOriginal, Honest;
    SafeIsBound(o, st.world);
  }

  lemma OutsideSound(c: Config, o: Origin, st: State, e: Event)
    requires Sound(c, o, st)
    ensures Sound(c, o, st.(world := Disturb(st.world, e)))
  {
    hide OnlyOriginal, LogSound, UnlinkSource, HardLink;
    SafeIsBound(o, st.world);
    DisturbFollows(o, st.world, e);
    SoundFollows(c, o, st, Disturb(st.world, e));
  }

  lemma StepSound(c: Config, o: Origin, st: State, a: Action)
    requires Sound(c, o, st)
    ensures Sound(c, o, Step(c, st, a))
  {
    hide Sound, BeginStep, PromoteStep, VerifyStep, Disturb;
    match a
    case Begin(e) => BeginSound(c, o, st, e);
    case Promote(token, sched) => PromoteStepSound(c, o, st, token, sched);
    case Verify(token, e) => VerifySound(c, o, st, token, e);
    case ProcessLost => LossSound(c, o, st);
    case Outside(e) => OutsideSound(c, o, st, e);
  }

  /** Safety, effect honesty and the accounting of links hold after every run. */
  lemma {:induction false} RunSound(c: Config, o: Origin, st: State, actions: seq<Action>)
    requires Sound(c, o, st)
    ensures Sound(c, o, Run(c, st, actions))
    decreases |actions|
  {
    if actions != [] {
      StepSound(c, o, st, actions[0]);
      RunSound(c, o, Step(c, st, actions[0]), actions[1..]);
    }
  }

  /** A fresh start: the staged file exists, nothing was linked yet, no session is open. */
  predicate Fresh(o: Origin, st: State) {
    Safe(o, st.world) && st.world.ownLinks == 0 &&
    st.sessions == map[] && st.completed == map[] && st.log == []
  }

  /** Promotion safety: over every interleaving the published name is absent or bound to the
      original file object with exactly the original bytes, and those have the expected digest
      whenever this process published them. */
  lemma PublishedOnlyOriginal(c: Config, o: Origin, st: State, actions: seq<Action>)
    requires Fresh(o, st)
    ensures var d := Run(c, st, actions).world.disk;
            Destination in d.names ==>
              d.names[Destination] == o.ino && d.Object(Destination).bytes == o.bytes &&
              SameFileObject(d.Object(Destination).identity, o.identity)
    ensures Run(c, st, actions).world.ownLinks > 0 ==> c.sha256(o.bytes) == c.expected
  {
    RunSound(c, o, st, actions);
  }

  /** Over a whole run at most one link is made, by this process or by a rival, none when the
      name was already published; once published the name stays. */
  lemma AtMostOneLink(c: Config, o: Origin, st: State, before: seq<Action>, after: seq<Action>)
    requires Fresh(o, st)
    ensures var s1 := Run(c, st, before); var s2 := Run(c, s1, after);
            && s2.world.ownLinks + s2.world.rivalLinks <= 1
            && (o.published ==> s2.world.ownLinks + s2.world.rivalLinks == 0)
            && (Destination in s1.world.disk.names ==> Destination in s2.world.disk.names)
  {
    RunSound(c, o, st, before);
    RunSound(c, o, Run(c, st, before), after);
    RunKeepsPublished(c, o, Run(c, st, before), after);
  }

  lemma StepKeepsPublished(c: Config, o: Origin, st: State, a: Action)
    requires Sound(c, o, st)
    ensures Destination in st.world.disk.names ==> Destination in Step(c, st, a).world.disk.names
  {
    match a
    case Begin(e) => InspectFollows(o, c, st.world, e);
    case Promote(token, sched) => PromoteCallSound(c, o, st, token, sched);
    case Verify(token, e) => InspectFollows(o, c, st.world, e);
    case ProcessLost =>
    case Outside(e) => DisturbFollows(o, st.world, e);
  }

  lemma {:induction false} RunKeepsPublished(c: Config, o: Origin, st: State, actions: seq<Action>)
    requires Sound(c, o, st)
    ensures Destination in st.world.disk.names ==> Destination in Run(c, st, actions).world.disk.names
    decreases |actions|
  {
    if actions != [] {
      StepKeepsPublished(c, o, st, actions[0]);
      StepSound(c, o, st, actions[0]);
      RunKeepsPublished(c, o, Step(c, st, actions[0]), actions[1..]);
    }
  }

  /** Every promote of every run reports its effect truthfully, and no token succeeds twice. */
  lemma EveryExitHonest(c: Config, o: Origin, st: State, actions: seq<Action>)
    requires Fresh(o, st)
    ensures forall e :: e in Run(c, st, actions).log ==> Honest(e)
    ensures var log := Run(c, st, actions).log;
            forall i, j :: 0 <= i < j < |log| && log[i].exit.Promoted? && log[j].exit.Promoted? ==>
              log[i].token != log[j].token
  {
    RunSound(c, o, st, actions);
  }

  predicate Promotable(c: Config, o: Origin) {
    DigestAccepted(c, o) && c.rootsDiffer && 1 <= |o.bytes| <= MAXIMUM_MANIFEST_BYTES
  }

  /** A session taken without disturbance names what is on the disk, and exists exactly when
      one of the names does. */
  lemma QuietInspection(c: Config, o: Origin, w: World)
    requires Safe(o, w) && Promotable(c, o)
    ensures var (w', s) := Inspect(c, w, NO_PAUSES);
            && w' == w
            && (s.Some? <==> Source in w.disk.names || Destination in w.disk.names)
            && (s.Some? ==> Recorded(o, w, s.value) && s.value.directories == w.disk.directories)
  {
    InspectFollows(o, c, w, NO_PAUSES);
  }

  /** Convergence: after any run with any losses, a fresh undisturbed begin opens a session exactly
      when the file still has one of its names; then promote succeeds, links exactly when the name
      was not published, and verification confirms the result. */
  lemma Converges(c: Config, o: Origin, st: State, actions: seq<Action>)
    requires Fresh(o, st) && Promotable(c, o)
    ensures var lost := Step(c, Run(c, st, actions), ProcessLost);
            var (begun, token) := BeginStep(c, lost, NO_PAUSES);
            && (token.Some? <==> lost.world.disk.names != map[])
            && (token.Some? ==>
                  var (done, exit) := PromoteStep(c, begun, token.value, NO_DISTURBANCE);
                  && exit == Promoted(Destination in lost.world.disk.names, Destination !in lost.world.disk.names,
                                      Source in lost.world.disk.names, o.bytes)
                  && Destination in done.world.disk.names
                  && VerifyStep(c, done, token.value, NO_PAUSES).1)
  {
    hide Sound, Recorded, BeginStep, PromoteStep, VerifyStep, Run;
    FreshIsSound(c, o, st);
    RunSound(c, o, st, actions);
    var lost := Step(c, Run(c, st, actions), ProcessLost);
    LossSound(c, o, Run(c, st, actions));
    QuietBegin(c, o, lost);
    var (begun, token) := BeginStep(c, lost, NO_PAUSES);
    if token.Some? { QuietPromotion(c, o, begun, token.value); }
  }

  lemma FreshIsSound(c: Config, o: Origin, st: State)
    requires Fresh(o, st)
    ensures Sound(c, o, st)
  {
    hide OnlyOriginal;
  }

  /** An undisturbed begin opens a session exactly when the file has a name, and the session names what is there. */
  lemma QuietBegin(c: Config, o: Origin, st: State)
    requires Sound(c, o, st) && Promotable(c, o)
    ensures var (begun, token) := BeginStep(c, st, NO_PAUSES);
            && Sound(c, o, begun) && begun.world == st.world
            && (token.Some? <==> st.world.disk.names != map[])
            && (token.Some? ==>
                  token.value == st.nextToken && token.value in begun.sessions &&
                  Recorded(o, begun.world, begun.sessions[token.value]) &&
                  begun.sessions[token.value].directories == begun.world.disk.directories)
  {
    hide OnlyOriginal, Inspect, Recorded, LogSound, StaysCompleted;
    SafeIsBound(o, st.world);
    QuietInspection(c, o, st.world);
    BeginSound(c, o, st, NO_PAUSES);
    var names := st.world.disk.names;
    if names != map[] {
      var p :| p in names.Keys;
      assert p == Source || p == Destination;
    }
  }

  lemma QuietLink(c: Config, o: Origin, w: World, s: Session)
    requires Safe(o, w) && Promotable(c, o) && Recorded(o, w, s)
    ensures var (w', linked, ok) := LinkStep(c, w, s, NO_DISTURBANCE);
            && ok && Safe(o, w') && linked == (Destination !in w.disk.names)
            && Destination in w'.disk.names
            && (Source in w'.disk.names <==> Source in w.disk.names)
  {
    LinkStepFollows(o, c, w, s, NO_DISTURBANCE);
    if s.mode == Ready {
      var d := HardLink(w.disk).value;
      assert d.names == w.disk.names[Destination := o.ino];
    }
  }

  lemma QuietPromotion(c: Config, o: Origin, st: State, token: nat)
    requires Sound(c, o, st) && Promotable(c, o)
    requires token in st.sessions && Recorded(o, st.world, st.sessions[token])
    requires st.sessions[token].directories == st.world.disk.directories
    ensures var w := st.world; var (done, exit) := PromoteStep(c, st, token, NO_DISTURBANCE);
            && exit == Promoted(Destination in w.disk.names, Destination !in w.disk.names,
                                Source in w.disk.names, o.bytes)
            && Destination in done.world.disk.names
            && VerifyStep(c, done, token, NO_PAUSES).1
  {
    var s := st.sessions[token];
    assert VerifySession(c, st.world, s, NO_PAUSES) == (st.world, true);
    var (w2, effect, ok) := LinkStep(c, st.world, s, NO_DISTURBANCE);
    QuietLink(c, o, st.world, s);
    QuietInspection(c, o, w2);
  }

  /** Verification of a completed promotion, left undisturbed, is true exactly while the staged name
      is as it was at completion: discarding the staging area afterwards makes it false, although
      the published file is still the original one and a fresh session would verify. */
  lemma VerifiedUntilStagingDiscard(c: Config, o: Origin, st: State, actions: seq<Action>, token: nat)
    requires Fresh(o, st) && Promotable(c, o)
    requires token in Run(c, st, actions).completed
    ensures var now := Run(c, st, actions);
            VerifyStep(c, now, token, NO_PAUSES).1 <==>
              (Source in now.world.disk.names <==> now.completed[token].mode == LinkedPending)
  {
    RunSound(c, o, st, actions);
    var now := Run(c, st, actions);
    QuietInspection(c, o, now.world);
    assert StaysCompleted(o, now.world, now.completed[token]);
  }

  /** The failing case above is reachable from every source-only start: promote, discard the staging
      area, verify. The published file is untouched, yet verification says no. */
  lemma DiscardDefeatsVerification(c: Config, o: Origin, st: State)
    requires Fresh(o, st) && Promotable(c, o)
    requires Source in st.world.disk.names && Destination !in st.world.disk.names
    ensures var token := st.nextToken;
            var end := Run(c, st, [Begin(NO_PAUSES), Promote(token, NO_DISTURBANCE), Outside(StagingDiscarded)]);
            && Destination in end.world.disk.names && token in end.completed
            && !VerifyStep(c, end, token, NO_PAUSES).1
  {
    hide Sound, Recorded, BeginStep, PromoteStep, VerifyStep, Run, HardLink, OnlyOriginal;
    var token := st.nextToken;
    var actions := [Begin(NO_PAUSES), Promote(token, NO_DISTURBANCE), Outside(StagingDiscarded)];
    FreshIsSound(c, o, st);
    QuietBegin(c, o, st);
    var begun := BeginStep(c, st, NO_PAUSES).0;
    QuietPromotion(c, o, begun, token);
    QuietCompletion(c, o, begun, token);
    PromoteStepSound(c, o, begun, token, NO_DISTURBANCE);
    DiscardRemovesSource(c, o, PromoteStep(c, begun, token, NO_DISTURBANCE).0);
    RunOfThree(c, st, actions[0], actions[1], actions[2]);
    VerifiedUntilStagingDiscard(c, o, st, actions, token);
  }

  lemma DiscardRemovesSource(c: Config, o: Origin, st: State)
    requires Sound(c, o, st)
    ensures var end := Step(c, st, Outside(StagingDiscarded));
            Source !in end.world.disk.names && end.completed == st.completed &&
            (Destination in st.world.disk.names ==> Destination in end.world.disk.names)
  {
    hide OnlyOriginal, LogSound;
    SafeIsBound(o, st.world);
  }

  lemma RunOfThree(c: Config, st: State, a1: Action, a2: Action, a3: Action)
    requires st.world.disk.Bound()
    ensures Run(c, st, [a1, a2, a3]) == Step(c, Step(c, Step(c, st, a1), a2), a3)
  {
    RunCons(c, st, a1, [a2, a3]);
    RunCons(c, Step(c, st, a1), a2, [a3]);
    RunCons(c, Step(c, Step(c, st, a1), a2), a3, []);
    assert [a1, a2, a3] == [a1] + [a2, a3] && [a2, a3] == [a2] + [a3] && [a3] == [a3] + [];
  }

  lemma RunCons(c: Config, st: State, a: Action, rest: seq<Action>)
    requires st.world.disk.Bound()
    ensures Run(c, st, [a] + rest) == Run(c, Step(c, st, a), rest)
  {
    assert ([a] + rest)[1..] == rest;
  }

  lemma QuietCompletion(c: Config, o: Origin, st: State, token: nat)
    requires Sound(c, o, st) && Promotable(c, o)
    requires token in st.sessions && Recorded(o, st.world, st.sessions[token])
    requires st.sessions[token].directories == st.world.disk.directories
    requires Source in st.world.disk.names
    ensures var done := PromoteStep(c, st, token, NO_DISTURBANCE).0;
            Source in done.world.disk.names && token in done.completed && done.completed[token].mode == LinkedPending
  {
    var s := st.sessions[token];
    assert VerifySession(c, st.world, s, NO_PAUSES) == (st.world, true);
    QuietLink(c, o, st.world, s);
    QuietInspection(c, o, LinkStep(c, st.world, s, NO_DISTURBANCE).0);
  }
}
