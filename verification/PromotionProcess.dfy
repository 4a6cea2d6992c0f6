/**
 The calls of the promotion module as they run: session maps that are updated, a link
 call that changes the disk, and a read loop over short reads. Each call is proved to
 do what its step in Promotion says, for every schedule of outside events.
 */
module PromotionProcess {
  import opened Common
  import opened PromotionDisk
  import opened Promotion

  class Process {
    const config: Config
    // How many bytes beyond the first each read call grants; a read that grants none is a Fault.
    const grants: nat -> nat
    var world: World
    var sessions: map<nat, Session>
    var completed: map<nat, Session>
    var nextToken: nat
    ghost var log: seq<Entry>

    ghost predicate Valid()
      reads this
    {
      world.disk.Bound() && Sized(world.disk)
    }

    ghost function View(): State
      reads this
    {
      State(world, sessions, completed, nextToken, log)
    }

    constructor (config: Config, grants: nat -> nat, world: World)
      requires world.disk.Bound() && Sized(world.disk)
      ensures Valid() && View() == State(world, map[], map[], 0, [])
      ensures this.config == config
    {
      this.config, this.grants, this.world := config, grants, world;
      sessions, completed, nextToken, log := map[], map[], 0, [];
    }

    method Pause(e: Event)
      requires Valid()
      modifies this`world
      ensures Valid() && world == Disturb(old(world), e)
    {
      match e
      case StagingDiscarded =>
        world := world.(disk := UnlinkSource(world.disk));
      case RivalLinked =>
        var linked := HardLink(world.disk);
        if linked.Some? {
          world := world.(disk := linked.value, rivalLinks := world.rivalLinks + 1);
        }
      case _ =>
    }

    /** The fill loop of readStableFile between its two identity checks. */
    method ReadStableFile(p: Place, expected: Identity) returns (r: Option<seq<byte>>)
      requires Valid()
      ensures r == StableRead(world.disk, p, expected)
    {
      if p !in world.disk.names || world.disk.Object(p).identity != expected {
        return None;
      }
      var content := world.disk.Object(p).bytes;
      var size := world.disk.Object(p).identity.size;
      var buffer := new byte[size](_ => 0);
      var offset, call := 0, 0;
      while offset < buffer.Length
        invariant 0 <= offset <= buffer.Length == |content|
        invariant buffer[..offset] == content[..offset]
      {
        var count := if 1 + grants(call) <= size - offset then 1 + grants(call) else size - offset;
        forall k | offset <= k < offset + count {
          buffer[k] := content[k];
        }
        assert buffer[..offset + count] == content[..offset + count];
        offset, call := offset + count, call + 1;
      }
      assert buffer[..] == buffer[..offset] == content;
      r := Some(buffer[..]);
    }

    method VerifyFile(p: Place, id: Identity, bytes: seq<byte>) returns (ok: bool)
      requires Valid()
      ensures ok == FileVerified(config, world.disk, p, id, bytes)
    {
      var read := ReadStableFile(p, id);
      ok := read == Some(bytes) && config.sha256(bytes) == config.expected;
    }

    method InspectSession(e: Pauses) returns (s: Option<Session>)
      requires Valid()
      modifies this`world
      ensures Valid() && (world, s) == Inspect(config, old(world), e)
    {
      Pause(e.first);
      var src := Look(world.disk, Source);
      Pause(e.second);
      var dst := Look(world.disk, Destination);
      Pause(e.third);
      if e.Faulty() || !config.rootsDiffer || !SizeAccepted(src) || !SizeAccepted(dst) || (src.None? && dst.None?) {
        return None;
      }
      var read;
      if src.Some? {
        read := ReadStableFile(Source, src.value);
      } else {
        read := ReadStableFile(Destination, dst.value);
      }
      if read.None? || config.sha256(read.value) != config.expected {
        return None;
      }
      if src.Some? {
        var ok := VerifyFile(Source, src.value, read.value);
        if !ok { return None; }
      }
      if dst.Some? {
        var ok := VerifyFile(Destination, dst.value, read.value);
        if !ok { return None; }
      }
      if src.Some? && dst.Some? && !SameFileObject(src.value, dst.value) {
        return None;
      }
      var mode := if src.None? then Transferred else if dst.Some? then LinkedPending else Ready;
      s := Some(Session(mode, world.disk.directories, src, dst, read.value));
    }

    method VerifyOpenSession(s: Session, e: Pauses) returns (ok: bool)
      requires Valid()
      modifies this`world
      ensures Valid() && (world, ok) == VerifySession(config, old(world), s, e)
    {
      Pause(e.first);
      var src := Look(world.disk, Source);
      Pause(e.second);
      var dst := Look(world.disk, Destination);
      Pause(e.third);
      ok := !e.Faulty() && SameDirectories(s.directories, world.disk.directories) && SizeAccepted(src) && SizeAccepted(dst);
      if !ok { return; }
      match s.mode {
        case Ready =>
          ok := src.Some? && dst.None? && s.sourceManifest == src;
        case LinkedPending =>
          ok := src.Some? && dst.Some? && s.sourceManifest == src && s.destinationManifest == dst &&
                SameFileObject(src.value, dst.value);
        case Transferred =>
          ok := src.None? && dst.Some? && s.destinationManifest == dst;
      }
      if ok && src.Some? {
        ok := VerifyFile(Source, src.value, s.bytes);
      }
      if ok && dst.Some? {
        ok := VerifyFile(Destination, dst.value, s.bytes);
      }
    }

    /** beginReleaseManifestPromotionSession with well-formed arguments. */
    method BeginSession(e: Pauses) returns (token: Option<nat>)
      requires Valid()
      modifies this
      ensures Valid() && (View(), token) == BeginStep(config, old(View()), e)
    {
      var s := InspectSession(e);
      if s.None? {
        return None;
      }
      token := Some(nextToken);
      sessions := sessions[nextToken := s.value];
      nextToken := nextToken + 1;
    }

    /** promoteReleaseManifestBytes. */
    method PromoteBytes(token: nat, sched: Schedule) returns (exit: Exit)
      requires Valid()
      modifies this
      ensures Valid() && (View(), exit) == PromoteStep(config, old(View()), token, sched)
    {
      ghost var links := world.ownLinks;
      exit := PromoteUnrecorded(token, sched);
      log := log + [Entry(token, exit, world.ownLinks > links)];
    }

    method PromoteUnrecorded(token: nat, sched: Schedule) returns (exit: Exit)
      requires Valid()
      modifies this
      ensures Valid() && (View(), exit) == PromoteCall(config, old(View()), token, sched)
    {
      if token !in sessions {
        return Failed(false, true, false);
      }
      var s := sessions[token];
      var effectIssued := false;
      var ok := VerifyOpenSession(s, sched.check);
      if !ok {
        return Failed(effectIssued, !effectIssued, effectIssued);
      }
      var confirmed;
      effectIssued, confirmed := InstallLink(s, sched);
      if !confirmed {
        return Failed(effectIssued, !effectIssued, effectIssued);
      }
      exit := FinishPromotion(token, s, effectIssued, sched.finish);
    }

    /** The exclusive link of a ready session and the checks right after it. */
    method InstallLink(s: Session, sched: Schedule) returns (effectIssued: bool, confirmed: bool)
      requires Valid()
      modifies this`world
      ensures Valid() && (world, effectIssued, confirmed) == LinkStep(config, old(world), s, sched)
    {
      if s.mode != Ready {
        return false, true;
      }
      Pause(sched.link);
      var linked := HardLink(world.disk);
      if sched.link.Fault? || linked.None? {
        return false, false;
      }
      world := world.(disk := linked.value, ownLinks := world.ownLinks + 1);
      effectIssued := true;
      Pause(sched.confirm);
      confirmed := !sched.confirm.Fault? && InstallConfirmed(config, world.disk, s);
    }

    method FinishPromotion(token: nat, s: Session, effectIssued: bool, e: Pauses) returns (exit: Exit)
      requires Valid()
      modifies this
      ensures Valid() && (View(), exit) == FinishStep(config, old(View()), token, s, effectIssued, e)
    {
      var final := InspectSession(e);
      if final.None? || final.value.mode == Ready || final.value.destinationManifest.None? {
        return Failed(effectIssued, !effectIssued, effectIssued);
      }
      sessions := sessions - {token};
      completed := completed[token := final.value];
      exit := Promoted(s.mode != Ready, effectIssued, final.value.mode == LinkedPending, s.bytes);
    }

    /** verifyPromotedReleaseManifestBytes. */
    method VerifyPromoted(token: nat, e: Pauses) returns (ok: bool)
      requires Valid()
      modifies this`world
      ensures Valid() && (View(), ok) == VerifyStep(config, old(View()), token, e)
    {
      if token !in completed {
        return false;
      }
      var s := completed[token];
      var current := InspectSession(e);
      ok := current.Some? && current.value.mode != Ready &&
            current.value.destinationManifest.Some? && current.value.destinationManifest == s.destinationManifest &&
            SameDirectories(current.value.directories, s.directories);
    }
  }

  /** A recorded size is the length of the content. */
  ghost predicate Sized(d: Disk) {
    forall ino :: ino in d.objects ==> |d.objects[ino].bytes| == d.objects[ino].identity.size
  }

  datatype CompositionExit =
    | CompositionPromoted(effectIssued: bool, stagingRetained: bool)
    | CompositionFailed(effectIssued: bool, cleanupConfirmed: bool, reentryRequired: bool)
    | CompositionRefused

  /** The repository checks before and after, which this model leaves to the environment. */
  datatype Repository = Repository(before: bool, after: bool, pauses: Pauses)

  /**
   executeReleaseManifestPromotionCompositionForVerification. Once promote has returned, every
   failure demands re-entry and reports promote's own effect; before that nothing was linked
   unless promote itself says so.
   */
  method PromoteComposition(p: Process, repository: Repository, begin: Pauses, sched: Schedule)
    returns (exit: CompositionExit)
    requires p.Valid()
    modifies p
    ensures p.Valid()
    ensures !repository.before ==> exit == CompositionRefused && p.View() == old(p.View())
    ensures exit.CompositionRefused? ==> p.world.ownLinks == old(p.world.ownLinks)
    ensures !exit.CompositionRefused? ==>
      exists token: nat ::
        var (begun, issued) := BeginStep(p.config, old(p.View()), begin);
        var (promoted, inner) := PromoteStep(p.config, begun, token, sched);
        && issued == Some(token)
        && exit.effectIssued == inner.effectIssued
        && (inner.Failed? ==>
              p.View() == promoted &&
              exit == CompositionFailed(inner.effectIssued, inner.cleanupConfirmed, inner.reentryRequired))
        && (inner.Promoted? ==>
              var confirmed := repository.after && VerifyStep(p.config, promoted, token, repository.pauses).1;
              exit == if confirmed then CompositionPromoted(inner.effectIssued, inner.stagingRetained)
                      else CompositionFailed(inner.effectIssued, false, true))
  {
    hide PromoteStep, VerifyStep;
    if !repository.before {
      return CompositionRefused;
    }
    var token := p.BeginSession(begin);
    if token.None? {
      return CompositionRefused;
    }
    var inner := p.PromoteBytes(token.value, sched);
    if inner.Failed? {
      return CompositionFailed(inner.effectIssued, inner.cleanupConfirmed, inner.reentryRequired);
    }
    var confirmed := repository.after;
    if confirmed {
      confirmed := p.VerifyPromoted(token.value, repository.pauses);
    }
    if !confirmed {
      return CompositionFailed(inner.effectIssued, false, true);
    }
    exit := CompositionPromoted(inner.effectIssued, inner.stagingRetained);
  }
}
