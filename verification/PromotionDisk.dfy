/**
 The part of the file system that manifest promotion works on: two names (the staged
 manifest and the published one), the file objects behind them, and the four
 directories whose identity a session pins.
 */
module PromotionDisk {
  import opened Common

  // PLATFORM_PROVISIONER_MANIFEST_MAXIMUM_BYTES
  const MAXIMUM_MANIFEST_BYTES := 131072

  datatype Place = Source | Destination

  /** The eight fields a session records of one file or directory. */
  datatype Identity = Identity(dev: nat, ino: nat, birthtime: nat, mtime: nat,
                               ctime: nat, size: nat, mode: nat, nlink: nat)

  predicate SameDirectory(left: Identity, right: Identity) {
    left.dev == right.dev && left.ino == right.ino &&
    left.birthtime == right.birthtime && left.mode == right.mode
  }

  predicate SameFileObject(left: Identity, right: Identity) {
    left.dev == right.dev && left.ino == right.ino && left.birthtime == right.birthtime
  }

  datatype FileObject = FileObject(identity: Identity, bytes: seq<byte>)

  datatype Directories = Directories(sourceRoot: Identity, sourceParent: Identity,
                                     destinationRoot: Identity, destinationParent: Identity)

  predicate SameDirectories(left: Directories, right: Directories) {
    SameDirectory(left.sourceRoot, right.sourceRoot) &&
    SameDirectory(left.sourceParent, right.sourceParent) &&
    SameDirectory(left.destinationRoot, right.destinationRoot) &&
    SameDirectory(left.destinationParent, right.destinationParent)
  }

  /** names binds a place to an inode number; every bound inode has an object. */
  datatype Disk = Disk(names: map<Place, nat>, objects: map<nat, FileObject>,
                       directories: Directories, clock: nat)
  {
    predicate Bound() {
      forall p :: p in names ==> names[p] in objects
    }

    function Object(p: Place): FileObject
      requires Bound() && p in names
    {
      objects[names[p]]
    }
  }

  /** Changing the link count of a file also changes its status time. */
  function Relinked(o: FileObject, nlink: nat, now: nat): FileObject {
    o.(identity := o.identity.(nlink := nlink, ctime := now))
  }

  /** A directory entry was added or removed: times and size move, the pinned fields do not. */
  function Touched(d: Identity, now: nat): Identity {
    d.(mtime := now, ctime := now)
  }

  /** link(2) from the staged name to the published one; it fails when the target exists. */
  function HardLink(d: Disk): (r: Option<Disk>)
    requires d.Bound()
  {
    if Source !in d.names || Destination in d.names then None
    else
      var ino := d.names[Source];
      Some(Disk(d.names[Destination := ino],
                d.objects[ino := Relinked(d.objects[ino], d.objects[ino].identity.nlink + 1, d.clock)],
                d.directories.(destinationParent := Touched(d.directories.destinationParent, d.clock)),
                d.clock + 1))
  }

  /** The explicit discard of the staging area removes the staged name only. */
  function UnlinkSource(d: Disk): (r: Disk)
    requires d.Bound()
  {
    if Source !in d.names then d
    else
      var ino := d.names[Source];
      var left := if d.objects[ino].identity.nlink > 0 then d.objects[ino].identity.nlink - 1 else 0;
      Disk(d.names - {Source},
           d.objects[ino := Relinked(d.objects[ino], left, d.clock)],
           d.directories.(sourceParent := Touched(d.directories.sourceParent, d.clock)),
           d.clock + 1)
  }

  /** What lstat reports for a name. */
  function Look(d: Disk, p: Place): Option<Identity>
    requires d.Bound()
  {
    if p in d.names then Some(d.Object(p).identity) else None
  }

  /** Opening, reading and re-checking a file whose identity was recorded earlier. */
  function StableRead(d: Disk, p: Place, expected: Identity): Option<seq<byte>>
    requires d.Bound()
  {
    if p in d.names && d.Object(p).identity == expected then Some(d.Object(p).bytes) else None
  }
}
