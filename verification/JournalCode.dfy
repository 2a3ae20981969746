/** The loops of fs/log.c that move blocks between the buffer cache, the log
    and the home locations, tied to the write sequences of `Journal`. */
module JournalCode {
  import opened Blocks
  import opened LogProtocol
  import opened Journal

  /** The logical content of a block: a dirty buffer hides the disk. */
  function Cached(d: Disk, dirty: map<nat, Block>, b: nat): Block
    requires b < |d|
  {
    if b in dirty then dirty[b] else d[b]
  }

  function Fetch(d: Disk, dirty: map<nat, Block>, lh: seq<nat>): (r: seq<Block>)
    requires forall i :: 0 <= i < |lh| ==> lh[i] < |d|
    ensures |r| == |lh| && forall i :: 0 <= i < |lh| ==> r[i] == Cached(d, dirty, lh[i])
  {
    seq(|lh|, i requires 0 <= i < |lh| => Cached(d, dirty, lh[i]))
  }

  lemma FetchAt(d: Disk, dirty: map<nat, Block>, lh: seq<nat>, i: nat)
    requires i < |lh| && forall i :: 0 <= i < |lh| ==> lh[i] < |d|
    ensures Fetch(d, dirty, lh)[i] == Cached(d, dirty, lh[i])
  {
  }

  /** After the log copies the header block is still the old one, and once the
      header is down the log holds the values. */
  lemma HeaderAfterLog(d: Disk, ls: nat, lh: seq<nat>, vals: seq<Block>)
    requires Geometry(d, ls) && HomeEntries(d, ls, lh) && |lh| == |vals|
    ensures var d1 := Apply(d, LogWrites(ls, vals));
            && d1[ls] == d[ls]
            && var d2 := Apply(d1, [HeadWrite(d, ls, lh)]);
               d2 == Apply(d, LogWrites(ls, vals) + [HeadWrite(d, ls, lh)])
               && LogCopies(d2, ls, |lh|) == vals && d2[ls] == PutHead(d[ls], lh)
  {
    AfterLogWrites(d, ls, vals, |vals|);
    assert LogWrites(ls, vals)[..|vals|] == LogWrites(ls, vals);
    ApplyAppend(d, LogWrites(ls, vals), [HeadWrite(d, ls, lh)]);
    HeaderDown(d, ls, lh, vals);
  }

  lemma ApplyNone(d: Disk)
    ensures Apply(d, []) == d
  {
  }

  lemma ApplyOne(d: Disk, w: Write)
    requires w.at < |d|
    ensures Apply(d, [w]) == d[w.at := w.data]
  {
    assert [w][..0] == [];
    assert Apply(d, []) == d;
  }

  /** One more write of a sequence that is being issued in order. */
  lemma IssueNext(d: Disk, h: seq<Write>, ws: seq<Write>, i: nat)
    requires i < |ws| && ws[i].at < |d|
    ensures Apply(d, ws[..i + 1]) == Apply(d, ws[..i])[ws[i].at := ws[i].data]
    ensures h + ws[..i + 1] == h + ws[..i] + [ws[i]]
  {
    hide Apply;
    ApplyNext(d, ws, i);
  }

  /** Writing a buffer back clears its dirty flag. */
  function Undirtied(dirty: map<nat, Block>, lh: seq<nat>): map<nat, Block> {
    map b | b in dirty && b !in lh :: dirty[b]
  }

  lemma UndirtiedNext(dirty: map<nat, Block>, lh: seq<nat>, i: nat)
    requires i < |lh|
    ensures Undirtied(dirty, lh[..i + 1]) == Undirtied(dirty, lh[..i]) - {lh[i]}
  {
    assert lh[..i + 1] == lh[..i] + [lh[i]];
  }

  /** A disk that performs one block write at a time.  `issued` records them. */
  class Device {
    var blocks: Disk
    ghost var issued: seq<Write>

    constructor (d: Disk)
      ensures blocks == d && issued == []
    {
      blocks, issued := d, [];
    }

    method Put(at: nat, data: Block)
      requires at < |blocks|
      modifies this
      ensures blocks == old(blocks)[at := data]
      ensures issued == old(issued) + [Write(at, data)]
    {
      blocks, issued := blocks[at := data], issued + [Write(at, data)];
    }
  }

  class Committer {
    const dev: Device
    const ls: nat
    var lh: seq<nat>
    var dirty: map<nat, Block>   // buffers whose content is newer than the disk's

    constructor (dev: Device, ls: nat)
      ensures this.dev == dev && this.ls == ls && lh == [] && dirty == map[]
    {
      this.dev, this.ls, lh, dirty := dev, ls, [], map[];
    }

    /** What buf_read delivers. */
    function Buf(b: nat): Block
      requires b < |dev.blocks|
      reads this, dev
    {
      Cached(dev.blocks, dirty, b)
    }

    ghost predicate Valid()
      reads this, dev
    {
      && Geometry(dev.blocks, ls) && HomeEntries(dev.blocks, ls, lh)
      && forall b :: b in dirty ==> Home(dev.blocks, ls, b)
    }

    /** The content of the logged blocks that is to be committed. */
    ghost function Vals(): seq<Block>
      requires Valid()
      reads this, dev
    {
      Fetch(dev.blocks, dirty, lh)
    }

    /** Since entry, exactly the writes `ws` have been issued. */
    twostate predicate Issued(ws: seq<Write>)
      reads dev
    {
      dev.issued == old(dev.issued) + ws && dev.blocks == Apply(old(dev.blocks), ws)
    }

    method WriteLog()
      requires Valid()
      modifies dev
      ensures Valid() && Issued(LogWrites(ls, old(Vals())))
    {
      hide Word, PutEntries;
      ghost var vals := Vals();
      ghost var ws := LogWrites(ls, vals);
      var i := 0;
      assert ws[..0] == [];
      while i < |lh|
        invariant i <= |lh| && Valid() && Issued(ws[..i])
      {
        assert Home(dev.blocks, ls, lh[i]);
        assert Buf(lh[i]) == vals[i] by {
          AfterLogWrites(old(dev.blocks), ls, vals, i);
          FetchAt(old(dev.blocks), dirty, lh, i);
        }
        dev.Put(ls + 1 + i, Buf(lh[i]));
        IssueNext(old(dev.blocks), old(dev.issued), ws, i);
        i := i + 1;
      }
      assert ws[..|lh|] == ws;
    }

    method WriteHead()
      requires Valid()
      modifies dev
      ensures Valid() && Issued([HeadWrite(old(dev.blocks), ls, lh)])
    {
      hide Word, PutWord;
      var b := PutWord(dev.blocks[ls], 0, |lh|);
      for i := 0 to |lh|
        invariant b == PutEntries(dev.blocks[ls], lh, i)
      {
        b := PutWord(b, i + 1, lh[i]);
      }
      dev.Put(ls, b);
      ApplyOne(old(dev.blocks), HeadWrite(old(dev.blocks), ls, lh));
    }

    method ReadHeader()
      requires GoodDisk(dev.blocks, ls)
      modifies this`lh
      ensures lh == ReadHead(dev.blocks[ls])
    {
      var b := dev.blocks[ls];
      lh := [];
      for i := 0 to Word(b, 0)
        invariant lh == ReadHead(b)[..i]
      {
        lh := lh + [Word(b, i + 1)];
      }
    }

    method InstallTrans()
      requires Valid()
      modifies dev, this`dirty
      ensures Valid()
      ensures Issued(InstallWrites(lh, LogCopies(old(dev.blocks), ls, |lh|)))
      ensures dirty == Undirtied(old(dirty), lh)
    {
      hide Word, PutEntries;
      ghost var vals := LogCopies(dev.blocks, ls, |lh|);
      ghost var ws := InstallWrites(lh, vals);
      var i := 0;
      assert ws[..0] == [];
      while i < |lh|
        invariant i <= |lh| && Valid() && Issued(ws[..i])
        invariant dirty == Undirtied(old(dirty), lh[..i])
      {
        assert dev.blocks[ls + 1 + i] == vals[i] by {
          InstallKeepsLog(old(dev.blocks), ls, lh, vals, i);
          CopyAt(old(dev.blocks), ls, |lh|, i);
        }
        assert ls + 1 + i !in dirty;
        dev.Put(lh[i], Buf(ls + 1 + i));
        dirty := dirty - {lh[i]};
        IssueNext(old(dev.blocks), old(dev.issued), ws, i);
        UndirtiedNext(old(dirty), lh, i);
        i := i + 1;
      }
      assert ws[..|lh|] == ws && lh[..|lh|] == lh;
    }

    method LogAndHead()
      requires Valid()
      modifies dev
      ensures Valid()
      ensures Issued(LogWrites(ls, old(Vals())) + [HeadWrite(old(dev.blocks), ls, lh)])
      ensures LogCopies(dev.blocks, ls, |lh|) == old(Vals())
      ensures dev.blocks[ls] == PutHead(old(dev.blocks)[ls], lh)
    {
      hide Word, PutEntries;
      ghost var vals, d := Vals(), dev.blocks;
      HeaderAfterLog(d, ls, lh, vals);
      WriteLog();
      WriteHead();
    }

    /** The common end of commit and recover_from_log. */
    method InstallAndClear()
      requires Valid()
      modifies dev, this
      ensures Valid() && lh == [] && dirty == Undirtied(old(dirty), old(lh))
      ensures Issued(InstallWrites(old(lh), LogCopies(old(dev.blocks), ls, |old(lh)|))
                     + [Write(ls, PutHead(old(dev.blocks)[ls], []))])
    {
      hide Word, PutEntries;
      ghost var d, n := dev.blocks, |lh|;
      ghost var ins := InstallWrites(lh, LogCopies(d, ls, n));
      InstallTrans();
      assert dev.blocks[ls] == d[ls] by {
        InstallKeepsLog(d, ls, lh, LogCopies(d, ls, n), n);
        assert ins[..n] == ins;
      }
      lh := [];
      WriteHead();
      ApplyAppend(d, ins, [Write(ls, PutHead(d[ls], []))]);
    }

    /** commit: the writes it issues are exactly `CommitWrites`, so every state
        a crash can expose is a prefix state of `Journal.CommitPrefix`. */
    method Commit()
      requires Valid()
      modifies dev, this
      ensures Valid() && lh == [] && dirty == Undirtied(old(dirty), old(lh))
      ensures Issued(CommitWrites(old(dev.blocks), ls, old(lh), old(Vals())))
    {
      hide Word, PutEntries, Apply, LogWrites, InstallWrites;
      if |lh| > 0 {
        ghost var d, vals := dev.blocks, Vals();
        ghost var pre := LogWrites(ls, vals) + [HeadWrite(d, ls, lh)];
        ghost var post := InstallWrites(lh, vals) + [Write(ls, PutHead(PutHead(d[ls], lh), []))];
        LogAndHead();
        InstallAndClear();
        ApplyAppend(d, pre, post);
        assert CommitWrites(d, ls, old(lh), vals) == pre + post;
        assert old(dev.issued) + pre + post == old(dev.issued) + (pre + post);
      } else {
        assert Undirtied(dirty, lh) == dirty;
        ApplyNone(dev.blocks);
      }
    }

    /** recover_from_log, as run by log_init on an empty cache. */
    method Recover()
      requires GoodDisk(dev.blocks, ls) && dirty == map[]
      modifies dev, this
      ensures Valid() && lh == [] && dirty == map[]
      ensures Issued(RecoverWrites(old(dev.blocks), ls))
    {
      ReadHeader();
      InstallAndClear();
    }
  }
}
