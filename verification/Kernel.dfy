/** The machine as a user sees it: make a directory, create, write, close and unlink
    files, and lose power, in any order and any number of times. */
module Kernel {
  import opened Blocks
  import opened Common
  import opened Volume
  import opened FileSystem
  import opened InodeLife
  import opened Directory
  import Tree
  import opened Paths
  import opened Namei
  import opened FsCalls
  import opened FsOps
  import opened Images
  import P = LogProtocol
  import opened Journal
  import opened JournalSystem
  import opened CrashSafety
  import opened Running

  lemma Grown(boot: Sys, ls: nat, d0: Disk, t: nat, g: Geo, es: seq<Event>, v: Vol, w: Vol, dirty: set<nat>)
    returns (run: seq<Event>)
    requires Trace(boot, ls, d0, t, g, es, v) && g.ninodes < 0x1_0000_0000
    requires FsOps.Step(g, v, w, dirty) && |dirty| <= P.MAX_OPEN_BLOCKS
    ensures Trace(boot, ls, d0, t, g, run, w) && es <= run
  {
    hide FsOps.Step, AtRest, Legal, After, EndsHealthy;
    var more := CallTrace(After(boot, ls, es), ls, d0, g, t, v, w, dirty);
    TraceGrows(boot, ls, d0, t, g, es, more, v, w);
    run := es + more;
  }

  lemma FirstTrace(s: Sys, ls: nat, d0: Disk, t: nat, g: Geo, v: Vol)
    requires JournalSystem.Start(s, ls, d0) && Laid(g, ls, |d0|) && Represents(d0, g, v) && t < |s.p.tasks|
    ensures Trace(s, ls, d0, t, g, [], v)
  {
    hide Inv, Laid, Represents;
    InvStart(s, ls, d0);
  }

  class Machine {
    var fs: Fs
    const g: Geo
    const ls: nat
    const task: nat
    ghost const boot: Sys
    ghost const disk0: Disk
    ghost var es: seq<Event>  // everything that has happened since mkfs
    ghost var stable: Vol     // what the last commit left

    /** A run from the disk of mkfs, each of whose groups ended healthy; the durable
        disk holds `stable`. */
    ghost predicate Traced()
      reads this
    {
      && JournalSystem.Start(boot, ls, disk0) && Laid(g, ls, |disk0|) && HoldsHealthy(disk0, g)
      && g.ninodes < 0x1_0000_0000 && Trace(boot, ls, disk0, task, g, es, stable) && Healthy(stable, g)
    }

    /** The file system in memory is the durable one. */
    ghost predicate Up()
      reads this, fs
    {
      && Traced() && fs.g == g && fs.vol == stable
      && fs.Valid() && World(fs.vol, g) && FreeUnused(fs.vol, g, fs.ref)
    }

    /** Whatever has happened: had the power failed after any number of these events,
        the disk would have recovered to a healthy volume. */
    lemma SurvivesAnyMoment(n: nat, stops: seq<nat>)
      requires Traced() && n <= |es|
      ensures Legal(boot, ls, es[..n])
      ensures var e := Interrupted(After(boot, ls, es[..n]).disk, ls, stops);
              GoodDisk(e, ls) && HoldsHealthy(Apply(e, RecoverWrites(e, ls)), g)
    {
      hide Legal, After, EndsHealthy, AtRest, JournalSystem.Start, HoldsHealthy, Laid, Healthy, Interrupted, Apply, GoodDisk, RecoverWrites;
      AnyMomentSurvives(boot, ls, disk0, g, es, n, stops);
    }

    /** The first start on a disk. */
    constructor (g: Geo, ls: nat, task: nat, v: Vol, ghost k: Book, ghost s: Sys, ghost d0: Disk)
      requires JournalSystem.Start(s, ls, d0) && Laid(g, ls, |d0|) && Represents(d0, g, v) && g.ninodes < 0x1_0000_0000
      requires World(v, g) && Owned(v, g, k) && Settled(v, g, k) && task < |s.p.tasks|
      ensures Up() && fresh(fs) && fs.vol == v && this.g == g && this.ls == ls && boot == s && es == []
    {
      hide Owned, Settled, Laid, Tree.Ok, DirSizes, FieldsOk, JournalSystem.Start, Trace, Represents;
      FirstTrace(s, ls, d0, task, g, v);
      OwnedSizes(Snap(v, k, {}), g);
      this.fs := new Fs(g, v, k);
      this.g, this.ls, this.task, boot, disk0, es, stable := g, ls, task, s, d0, [], v;
    }

    /** sys_mkdir */
    method Mkdir(cwd: nat, path: Path, stack: seq<byte>) returns (r: int, halted: bool)
      requires Up() && Startable(fs.vol, g, fs.ref, path, cwd) && ParentLinked(fs.vol, g, cwd, path)
      requires ShortNames(Comps(path)) && |stack| == Directory.DIRENT
      modifies this`es, this`stable, fs
      ensures Traced() && old(es) <= es && (!halted ==> Up())
      ensures halted <==> CreateHalts(old(fs.vol), g, Namei.Start(path, cwd), Comps(path), DIRECTORY)
      ensures !halted ==> fs.ref == old(fs.ref) && Shape(old(fs.vol), g) && FilesKept(old(fs.vol), fs.vol, g, {})
      ensures !halted ==> MkdirDone(Abs(old(fs.vol), g), Abs(fs.vol, g), Namei.Start(path, cwd), Comps(path), r)
    {
      hide FsOps.Step, Trace, Tree.Ok, Owned, Settled, DirSizes, FieldsOk, Abs, Startable, ParentLinked, HoldsHealthy, JournalSystem.Start, Laid, Comps, MkdirDone, OpenDone, CreateHalts, FilesKept;
      ghost var v := fs.vol;
      r, halted := SysMkdir(fs, cwd, path, stack);
      if !halted {
        StepHealthy(g, v, fs.vol, fs.dirty);
        es := Grown(boot, ls, disk0, task, g, es, v, fs.vol, fs.dirty);
        stable := fs.vol;
      }
    }

    /** sys_open with O_CREAT */
    method Create(cwd: nat, path: Path, stack: seq<byte>) returns (c: Call)
      requires Up() && Startable(fs.vol, g, fs.ref, path, cwd) && ParentLinked(fs.vol, g, cwd, path)
      requires ShortNames(Comps(path)) && |stack| == Directory.DIRENT
      modifies this`es, this`stable, fs
      ensures Traced() && old(es) <= es && (!c.Halted? ==> Up())
      ensures c.Halted? <==> CreateHalts(old(fs.vol), g, Namei.Start(path, cwd), Comps(path), FILE)
      ensures !c.Halted? ==> FilesKept(old(fs.vol), fs.vol, g, {})
      ensures !c.Halted? ==> fs.ref == if c.Found? then Plus(old(fs.ref), c.inum) else old(fs.ref)
      ensures !c.Halted? ==> Shape(old(fs.vol), g) && OpenDone(Abs(old(fs.vol), g), Abs(fs.vol, g), Namei.Start(path, cwd), Comps(path), c)
    {
      hide FsOps.Step, Trace, Tree.Ok, Owned, Settled, DirSizes, FieldsOk, Abs, Startable, ParentLinked, HoldsHealthy, JournalSystem.Start, Laid, Comps, MkdirDone, OpenDone, CreateHalts, FilesKept;
      ghost var v := fs.vol;
      c := OpenCreating(fs, cwd, path, stack);
      if !c.Halted? {
        StepHealthy(g, v, fs.vol, fs.dirty);
        es := Grown(boot, ls, disk0, task, g, es, v, fs.vol, fs.dirty);
        stable := fs.vol;
      }
    }

    /** sys_unlink; the last condition is the one that the source does not check. */
    method Unlink(cwd: nat, path: Path) returns (r: int, ok: bool)
      requires Up() && Startable(fs.vol, g, fs.ref, path, cwd) && ShortNames(Comps(path))
      requires UnlinkFits(fs.vol, g, Namei.Start(path, cwd), Comps(path), fs.ref)
      modifies this`es, this`stable, fs
      ensures Traced() && old(es) <= es && (ok ==> Up())
      ensures ok <==> !Strays(Abs(old(fs.vol), g), Namei.Start(path, cwd), Comps(path))
      ensures ok ==> UnlinkAnswer(old(fs.vol), fs.vol, g, Namei.Start(path, cwd), Comps(path), old(fs.ref), fs.ref, r)
      ensures ok ==> OpenFilesKept(old(fs.vol), fs.vol, g)
    {
      hide FsOps.Step, Trace, Tree.Ok, Owned, Settled, DirSizes, FieldsOk, Abs, Startable, UnlinkFits, UnlinkLogged, UnlinkAnswer, OpenFilesKept, HoldsHealthy, JournalSystem.Start, Laid, Comps, Strays;
      ghost var v := fs.vol;
      r, ok := Unlinking(fs, cwd, path);
      if ok {
        StepHealthy(g, v, fs.vol, fs.dirty);
        es := Grown(boot, ls, disk0, task, g, es, v, fs.vol, fs.dirty);
        stable := fs.vol;
      }
    }

    /** One chunk of file_write */
    method WriteChunk(i: nat, src: seq<byte>, off: uint32) returns (r: WriteResult)
      requires Up() && InUse(fs.vol, g, i) && fs.vol.tab[i].typ == FILE && |src| <= 3 * BLOCK_SIZE
      modifies this`es, this`stable, fs
      ensures Traced() && old(es) <= es && (r != Panic ==> Up())
      ensures r.Written? ==> Spliced(old(fs.vol), fs.vol, g, i, off, src)
      ensures r.Refused? <==> off > old(fs.vol).tab[i].size || off + |src| > MAX_BLOCKS * BLOCK_SIZE
      ensures r.Panic? <==> !(off > old(fs.vol).tab[i].size || off + |src| > MAX_BLOCKS * BLOCK_SIZE)
                            && FreeBits(old(fs.vol).bits) < Added(old(fs.vol).tab[i].size, off + |src|)
    {
      hide FsOps.Step, Trace, Tree.Ok, Owned, Settled, DirSizes, FieldsOk, Spliced, HoldsHealthy, JournalSystem.Start, Laid;
      ghost var v := fs.vol;
      r := WritingChunk(fs, i, src, off);
      if r != Panic {
        StepHealthy(g, v, fs.vol, fs.dirty);
        es := Grown(boot, ls, disk0, task, g, es, v, fs.vol, fs.dirty);
        stable := fs.vol;
      }
    }

    /** The inode_put of file_close */
    method Close(x: nat, valid: bool)
      requires Up() && InUse(fs.vol, g, x) && x != 0 && fs.ref[x] >= 1
      requires CloseFits(fs.vol, g, x, valid, fs.ref[x])
      modifies this`es, this`stable, fs
      ensures Traced() && old(es) <= es && Up()
      ensures fs.ref == old(fs.ref)[x := old(fs.ref)[x] - 1]
      ensures OpenFilesKept(old(fs.vol), fs.vol, g)
      ensures Shape(old(fs.vol), g) && CloseDone(Abs(old(fs.vol), g), Abs(fs.vol, g), x, Last(old(fs.vol).tab[x], valid, old(fs.ref)[x]))
    {
      hide FsOps.Step, Trace, Tree.Ok, Owned, Settled, DirSizes, FieldsOk, CloseFits, HoldsHealthy, JournalSystem.Start, Laid, ReleaseSet, Abs, CloseDone, OpenFilesKept;
      ghost var v := fs.vol;
      Closing(fs, x, valid);
      StepHealthy(g, v, fs.vol, fs.dirty);
      es := Grown(boot, ls, disk0, task, g, es, v, fs.vol, fs.dirty);
      stable := fs.vol;
    }

    /** The power fails, in the middle of an operation that has made the writes `ws` or
        after a panic; the log is recovered and the disk `d` mounted.  The file system
        is what the last commit left, and nothing is held. */
    method Reboot(d: Disk, ghost ws: seq<Write>)
      requires Traced() && Legal(boot, ls, es) && Legal(After(boot, ls, es), ls, CrashSafety.Events(CutShort(task, ws)))
      requires SameHome(After(boot, ls, es).durable, d, ls) && Laid(g, ls, |d|)
      modifies this`es, this`fs
      ensures Up() && fresh(fs) && old(es) <= es && stable == old(stable)
      ensures forall i :: 0 <= i < |fs.ref| ==> fs.ref[i] == 0
    {
      hide Tree.Ok, Owned, Settled, DirSizes, FieldsOk, HoldsHealthy, JournalSystem.Start, Legal, After, EndsHealthy, Inv, Represents, SameHome, Laid;
      ghost var z := After(boot, ls, es);
      ghost var more := PowerTrace(z, ls, disk0, g, task, stable, ws);
      TraceGrows(boot, ls, disk0, task, g, es, more, stable, stable);
      SameHomeRepresents(z.durable, d, ls, g, stable);
      MountedIs(d, g, ls, stable);
      ghost var k :| Owned(stable, g, k) && Settled(stable, g, k);
      OwnedSizes(Snap(stable, k, {}), g);
      es := es + more;
      fs := new Fs(g, Mounted(d, g, ls), k);
    }
  }

  lemma StepHealthy(g: Geo, v: Vol, w: Vol, dirty: set<nat>)
    requires FsOps.Step(g, v, w, dirty)
    ensures Healthy(w, g)
  {
  }
}
