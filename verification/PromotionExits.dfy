/**
 What the calls of promotion answer on any disk and for any session, told from names, file objects and pinned
 directories alone: also on disks where the staged file was rewritten or a directory was exchanged.
 */
module PromotionExits {
  import opened Common
  import opened PromotionDisk
  import opened Promotion

  // ------------------------------------------------------------ what is on the disk

  /** The directory is the one that was recorded. */
  predicate Pinned(d: Identity, recorded: Identity) {
    d.dev == recorded.dev && d.ino == recorded.ino && d.birthtime == recorded.birthtime && d.mode == recorded.mode
  }

  predicate AllPinned(d: Directories, recorded: Directories) {
    Pinned(d.sourceRoot, recorded.sourceRoot) && Pinned(d.sourceParent, recorded.sourceParent) &&
    Pinned(d.destinationRoot, recorded.destinationRoot) && Pinned(d.destinationParent, recorded.destinationParent)
  }

  /** The file behind a bound name has an accepted size and the expected digest. */
  predicate Acceptable(c: Config, f: FileObject) {
    1 <= f.identity.size <= 131072 && c.sha256(f.bytes) == c.expected
  }

  predicate OneFile(f: FileObject, g: FileObject) {
    f.identity.dev == g.identity.dev && f.identity.ino == g.identity.ino && f.identity.birthtime == g.identity.birthtime
  }

  /** The name is bound to an acceptable file that is as it was recorded. */
  predicate Unchanged(c: Config, d: Disk, p: Place, recorded: Option<Identity>, bytes: seq<byte>)
    requires d.Bound()
  {
    p in d.names && var f := d.objects[d.names[p]];
    Acceptable(c, f) && recorded == Some(f.identity) && f.bytes == bytes
  }

  /** Everything is as the session recorded it: the bound names, their files, and the directories. */
  predicate Intact(c: Config, d: Disk, s: Session)
    requires d.Bound()
  {
    && AllPinned(d.directories, s.directories)
    && (if s.mode == Transferred then Source !in d.names else Unchanged(c, d, Source, s.sourceManifest, s.bytes))
    && (if s.mode == Ready then Destination !in d.names else Unchanged(c, d, Destination, s.destinationManifest, s.bytes))
    && (s.mode == LinkedPending ==> OneFile(d.objects[d.names[Source]], d.objects[d.names[Destination]]))
  }

  /** The disk from which a session can be opened. */
  predicate Inspectable(c: Config, d: Disk)
    requires d.Bound()
  {
    && c.rootsDiffer && (Source in d.names || Destination in d.names)
    && (Source in d.names ==> Acceptable(c, d.objects[d.names[Source]]))
    && (Destination in d.names ==> Acceptable(c, d.objects[d.names[Destination]]))
    && (Source in d.names && Destination in d.names ==>
          d.objects[d.names[Source]].bytes == d.objects[d.names[Destination]].bytes &&
          OneFile(d.objects[d.names[Source]], d.objects[d.names[Destination]]))
  }

  /** The session of this disk. */
  predicate Describes(d: Disk, s: Session)
    requires d.Bound()
  {
    && s.directories == d.directories
    && s.sourceManifest == (if Source in d.names then Some(d.objects[d.names[Source]].identity) else None)
    && s.destinationManifest == (if Destination in d.names then Some(d.objects[d.names[Destination]].identity) else None)
    && (s.mode == Ready <==> Destination !in d.names) && (s.mode == Transferred <==> Source !in d.names)
    && (Source in d.names ==> d.objects[d.names[Source]].bytes == s.bytes)
    && (Destination in d.names ==> d.objects[d.names[Destination]].bytes == s.bytes)
  }

  /** The world after the three preemption points of a call. */
  function Later(w: World, e: Pauses): (r: World)
    requires w.disk.Bound()
    ensures r.disk.Bound()
  {
    Disturb(Disturb(Disturb(w, e.first), e.second), e.third)
  }

  // ------------------------------------------------------------ begin

  /** What happens in between does not deceive an inspection: a session that it yields describes the disk as it is
      at its end. Undisturbed it yields one exactly when the disk is inspectable. */
  lemma InspectionTellsTheDisk(c: Config, w: World, e: Pauses)
    requires w.disk.Bound()
    ensures Inspect(c, w, e).0 == Later(w, e)
    ensures Inspect(c, w, e).1.Some? ==>
              !e.Faulty() && Inspectable(c, Later(w, e).disk) && Describes(Later(w, e).disk, Inspect(c, w, e).1.value)
    ensures e == NO_PAUSES ==> (Inspect(c, w, e).1.Some? <==> Inspectable(c, w.disk))
  {
    hide Classify, Inspectable, Describes, Disturb;
    QuietChangesNothing(w);
    ClassifyExactly(c, Later(w, e).disk);
    if Inspect(c, w, e).1.Some? { LooksAreCurrent(c, w, e); }
  }

  lemma QuietChangesNothing(w: World)
    requires w.disk.Bound()
    ensures Later(w, NO_PAUSES) == w && Disturb(w, Quiet) == w
  {
  }

  /** On a disk that does not change between the looks and the reads. */
  lemma ClassifyExactly(c: Config, d: Disk)
    requires d.Bound()
    ensures var s := Classify(c, d, Look(d, Source), Look(d, Destination));
            (s.Some? <==> Inspectable(c, d)) && (s.Some? ==> Describes(d, s.value))
  {
  }

  /** The names as they were looked at are those of the disk that was read, or there is no session. */
  lemma LooksAreCurrent(c: Config, w: World, e: Pauses)
    requires w.disk.Bound()
    ensures var w1 := Disturb(w, e.first); var w2 := Disturb(w1, e.second); var w3 := Later(w, e);
            Classify(c, w3.disk, Look(w1.disk, Source), Look(w2.disk, Destination)).Some? ==>
              Look(w1.disk, Source) == Look(w3.disk, Source) && Look(w2.disk, Destination) == Look(w3.disk, Destination)
  {
    hide Disturb;
    var w1 := Disturb(w, e.first);
    var w2 := Disturb(w1, e.second);
    StagedStays(w1, e.second);
    StagedStays(w2, e.third);
  }

  /** No event binds the staged name, takes the published name away, or links without a trace on the file. */
  lemma StagedStays(w: World, e: Event)
    requires w.disk.Bound()
    ensures var d, n := w.disk, Disturb(w, e).disk;
            && (Source in n.names ==> Source in d.names && n.names[Source] == d.names[Source])
            && (Destination in d.names ==> Destination in n.names)
            && (Destination in n.names && Destination !in d.names ==>
                  Source in n.names && n.objects[n.names[Source]].identity != d.objects[d.names[Source]].identity)
            && (Source in n.names && (Destination in n.names ==> Destination in d.names) ==>
                  n.objects[n.names[Source]] == d.objects[d.names[Source]])
  {
  }

  /** The call: a session under a new token exactly when the inspection yields one, and nothing else changes. */
  lemma BeginTellsTheDisk(c: Config, st: State, e: Pauses)
    requires st.world.disk.Bound()
    ensures var (after, token) := BeginStep(c, st, e); var d := Later(st.world, e).disk;
            && after.world == Later(st.world, e) && after.completed == st.completed && after.log == st.log
            && (token.None? ==> after == st.(world := after.world))
            && (token.Some? ==>
                  && !e.Faulty() && Inspectable(c, d) && token.value == st.nextToken && after.nextToken == st.nextToken + 1
                  && after.sessions.Keys == st.sessions.Keys + {st.nextToken} && Describes(d, after.sessions[st.nextToken])
                  && (forall t :: t in st.sessions && t != st.nextToken ==> after.sessions[t] == st.sessions[t]))
            && (e == NO_PAUSES ==> (token.Some? <==> Inspectable(c, st.world.disk)))
  {
    hide Inspect, Inspectable, Describes, Later;
    InspectionTellsTheDisk(c, st.world, e);
  }

  // ------------------------------------------------------------ promote

  /** What happens in between does not deceive the check of a session either. */
  lemma CheckTellsTheDisk(c: Config, w: World, s: Session, e: Pauses)
    requires w.disk.Bound()
    ensures VerifySession(c, w, s, e).0 == Later(w, e)
    ensures VerifySession(c, w, s, e).1 ==> !e.Faulty() && Intact(c, Later(w, e).disk, s)
    ensures e == NO_PAUSES ==> (VerifySession(c, w, s, e).1 <==> Intact(c, w.disk, s))
  {
    hide StillMatches, Intact, Disturb;
    QuietChangesNothing(w);
    MatchesExactly(c, Later(w, e).disk, s);
    if VerifySession(c, w, s, e).1 { MatchesAreCurrent(c, w, s, e); }
  }

  lemma MatchesExactly(c: Config, d: Disk, s: Session)
    requires d.Bound()
    ensures StillMatches(c, d, s, Look(d, Source), Look(d, Destination)) <==> Intact(c, d, s)
  {
  }

  lemma MatchesAreCurrent(c: Config, w: World, s: Session, e: Pauses)
    requires w.disk.Bound()
    ensures var w1 := Disturb(w, e.first); var w2 := Disturb(w1, e.second); var w3 := Later(w, e);
            StillMatches(c, w3.disk, s, Look(w1.disk, Source), Look(w2.disk, Destination)) ==>
              Look(w1.disk, Source) == Look(w3.disk, Source) && Look(w2.disk, Destination) == Look(w3.disk, Destination)
  {
    hide Disturb, SameDirectories;
    var w1 := Disturb(w, e.first);
    var w2 := Disturb(w1, e.second);
    StagedStays(w1, e.second);
    StagedStays(w2, e.third);
  }

  /** A promote call links nothing, changes nothing and keeps its session when the check fails, or the disk at the
      end of the check is not as the session recorded it. */
  lemma PromoteChecksFirst(c: Config, st: State, token: nat, sched: Schedule)
    requires st.world.disk.Bound()
    requires token in st.sessions ==> sched.check.Faulty() || !Intact(c, Later(st.world, sched.check).disk, st.sessions[token])
    ensures var (after, exit) := PromoteStep(c, st, token, sched);
            && exit == Failed(false, true, false)
            && after.world == (if token in st.sessions then Later(st.world, sched.check) else st.world)
            && after.world.ownLinks == st.world.ownLinks
            && (sched.check == NO_PAUSES ==> after.world == st.world)
            && after.sessions == st.sessions && after.completed == st.completed && after.nextToken == st.nextToken
  {
    hide VerifySession, LinkStep, FinishStep, Intact;
    QuietChangesNothing(st.world);
    if token in st.sessions { CheckTellsTheDisk(c, st.world, st.sessions[token], sched.check); }
  }

  /** Among them: a staged file that was rewritten after the session was opened. */
  lemma RewrittenStagingIsRefused(c: Config, st: State, token: nat, f: FileObject, sched: Schedule)
    requires st.world.disk.Bound() && Source in st.world.disk.names && sched.check == NO_PAUSES
    requires token in st.sessions && st.sessions[token].mode != Transferred
    requires f.bytes != st.sessions[token].bytes || Some(f.identity) != st.sessions[token].sourceManifest ||
             c.sha256(f.bytes) != c.expected
    ensures var d := st.world.disk;
            var rewritten := st.(world := st.world.(disk := d.(objects := d.objects[d.names[Source] := f])));
            var (after, exit) := PromoteStep(c, rewritten, token, sched);
            exit == Failed(false, true, false) && after.world == rewritten.world
  {
    hide PromoteStep;
    var d := st.world.disk;
    var rewritten := st.(world := st.world.(disk := d.(objects := d.objects[d.names[Source] := f])));
    QuietChangesNothing(rewritten.world);
    PromoteChecksFirst(c, rewritten, token, sched);
  }

  /** The link of a ready session was installed: the published name holds the file and the bytes of the session. */
  predicate Installed(c: Config, d: Disk, s: Session)
    requires d.Bound()
  {
    && Source in d.names && Destination in d.names && AllPinned(d.directories, s.directories)
    && var f, g := d.objects[d.names[Source]], d.objects[d.names[Destination]];
    && 1 <= f.identity.size <= 131072 && Acceptable(c, g) && g.bytes == s.bytes && OneFile(f, g)
    && s.sourceManifest.Some? && OneFile(f, FileObject(s.sourceManifest.value, []))
  }

  /** The link is made exactly when it can be, and confirmed exactly when it was installed. */
  lemma LinkTellsTheDisk(c: Config, w: World, s: Session, sched: Schedule)
    requires w.disk.Bound() && s.mode == Ready
    ensures var (w', linked, confirmed) := LinkStep(c, w, s, sched); var w1 := Disturb(w, sched.link);
            && (linked <==> !sched.link.Fault? && Source in w1.disk.names && Destination !in w1.disk.names)
            && (!linked ==> w' == w1 && !confirmed)
            && w'.ownLinks == w.ownLinks + (if linked then 1 else 0)
            && (linked ==> (confirmed <==> !sched.confirm.Fault? && Installed(c, w'.disk, s)))
  {
  }

  /** A file that is rewritten between the check and the link is linked, but the call says so and asks for re-entry. */
  lemma RewrittenLinkIsNotConfirmed(c: Config, w: World, s: Session, sched: Schedule)
    requires w.disk.Bound() && s.mode == Ready && Source in w.disk.names
    requires w.disk.objects[w.disk.names[Source]].bytes != s.bytes || c.sha256(s.bytes) != c.expected
    ensures !LinkStep(c, w, s, sched).2
    ensures FailedWith(LinkStep(c, w, s, sched).1) ==
              (if LinkStep(c, w, s, sched).1 then Failed(true, false, true) else Failed(false, true, false))
  {
  }

  /** A promote call that passed its check, step by step. */
  lemma PromoteAfterCheck(c: Config, st: State, token: nat, sched: Schedule)
    requires st.world.disk.Bound() && token in st.sessions && sched.check == NO_PAUSES
    requires Intact(c, st.world.disk, st.sessions[token])
    ensures var s := st.sessions[token]; var (after, exit) := PromoteStep(c, st, token, sched);
            var (w, linked, confirmed) := LinkStep(c, st.world, s, sched); var end := Later(w, sched.finish);
            && linked == (after.world.ownLinks > st.world.ownLinks)
            // A link that could not be made or was not confirmed.
            && (!confirmed ==> exit == Failed(linked, !linked, linked) && after.world == w && after.sessions == st.sessions)
            // A final look at the disk, and the hand-over of the session.
            && (confirmed && !exit.Promoted? ==> exit == Failed(linked, !linked, linked) && after.world == end && after.sessions == st.sessions)
            && (exit.Promoted? ==>
                  && confirmed && !sched.finish.Faulty() && after.world == end
                  && exit == Promoted(s.mode != Ready, linked, Source in end.disk.names, s.bytes)
                  && Inspectable(c, end.disk) && Destination in end.disk.names
                  && after.sessions == st.sessions - {token} && after.completed.Keys == st.completed.Keys + {token}
                  && Describes(end.disk, after.completed[token]))
            && (confirmed && sched.finish == NO_PAUSES ==>
                  (exit.Promoted? <==> Inspectable(c, w.disk) && Destination in w.disk.names))
  {
    hide VerifySession, Inspect, Intact, Inspectable, Later, LinkStep;
    var s := st.sessions[token];
    CheckTellsTheDisk(c, st.world, s, sched.check);
    QuietChangesNothing(st.world);
    var (w, linked, confirmed) := LinkStep(c, st.world, s, sched);
    LinkCounts(c, st.world, s, sched);
    InspectionTellsTheDisk(c, w, sched.finish);
    QuietChangesNothing(w);
    LaterKeepsOwn(w, sched.finish);
  }

  lemma LinkCounts(c: Config, w: World, s: Session, sched: Schedule)
    requires w.disk.Bound()
    ensures LinkStep(c, w, s, sched).0.ownLinks == w.ownLinks + (if LinkStep(c, w, s, sched).1 then 1 else 0)
    ensures s.mode != Ready ==> LinkStep(c, w, s, sched) == (w, false, true)
  {
    hide InstallConfirmed;
  }

  lemma LaterKeepsOwn(w: World, e: Pauses)
    requires w.disk.Bound()
    ensures Later(w, e).ownLinks == w.ownLinks
  {
  }

  // ------------------------------------------------------------ verify

  /** Verification, undisturbed: the published file is the one that was recorded at completion, in the same
      directories, and everything on the disk is acceptable. */
  lemma VerifyTellsTheDisk(c: Config, st: State, token: nat)
    requires st.world.disk.Bound()
    ensures var (after, ok) := VerifyStep(c, st, token, NO_PAUSES); var d := st.world.disk;
            && after == st
            && (ok <==> token in st.completed && Inspectable(c, d) && Destination in d.names &&
                        st.completed[token].destinationManifest == Some(d.objects[d.names[Destination]].identity) &&
                        AllPinned(d.directories, st.completed[token].directories))
  {
    hide Inspect, Inspectable, Later;
    QuietChangesNothing(st.world);
    InspectionTellsTheDisk(c, st.world, NO_PAUSES);
  }
}
