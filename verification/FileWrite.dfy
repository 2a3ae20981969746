/** file_write on an inode: the write is cut into chunks of at most 1536 bytes,
    each its own log operation. */
module FileWrite {
  import opened Blocks
  import opened Volume
  import opened FileSystem

  /** ((MAX_OPEN_BLOCKS - 4) / 2) * BLOCK_SIZE with MAX_OPEN_BLOCKS = 10. */
  const CHUNK: nat := 1536

  /** The buffer position that byte `x` of the write is taken from. */
  function Wrap(x: nat): (y: nat)
    ensures y <= x && y < CHUNK && (x < CHUNK ==> y == x)
  {
    x % 1536
  }

  lemma WrapStep(i: nat, y: nat)
    requires Wrap(i) == 0 && y < CHUNK
    ensures Wrap(i + y) == y && Wrap(i + CHUNK) == 0
  {
  }

  class File {
    var inode: nat
    var offset: uint32
    var writable: bool

    constructor (inode: nat, offset: uint32, writable: bool)
      ensures this.inode == inode && this.offset == offset && this.writable == writable
    {
      this.inode, this.offset, this.writable := inode, offset, writable;
    }
  }

  /** What reaches the file: the source pointer is not advanced between chunks,
      so every chunk starts again with the first byte of the buffer. */
  function Repeated(src: seq<byte>): (r: seq<byte>)
    ensures |r| == |src| && forall x :: 0 <= x < |r| ==> r[x] == src[Wrap(x)]
  {
    seq(|src|, x requires 0 <= x < |src| => src[Wrap(x)])
  }

  /** The range of the file that was written holds the caller's bytes exactly if
      the buffer repeats itself every 1536 bytes, in particular whenever one chunk
      is enough. */
  lemma WrittenFaithfully(v: Vol, w: Vol, g: Geo, i: nat, off: nat, src: seq<byte>)
    requires Spliced(v, w, g, i, off, Repeated(src))
    ensures off + |src| <= |Contents(w, g, i)|
    ensures Contents(w, g, i)[off..off + |src|] == src <==> forall x :: 0 <= x < |src| ==> src[x] == src[Wrap(x)]
    ensures |src| <= CHUNK ==> Contents(w, g, i)[off..off + |src|] == src
  {
    hide Contents, Wrap, OthersKept;
    var r, c := Repeated(src), Contents(w, g, i);
    assert c[off..off + |src|] == r;
    hide Repeated;
    assert (forall x :: 0 <= x < |src| ==> src[x] == src[Wrap(x)]) ==> r == src;
    assert r == src ==> forall x :: 0 <= x < |src| ==> src[x] == src[Wrap(x)];
  }

  /** A caller can rely on it for lengths up to 1536 and for no other, whatever the
      file held. */
  lemma LongWritesCanFail(n: nat, c: seq<byte>, off: nat)
    requires off <= |c|
    ensures n <= CHUNK <==> forall src: seq<byte> :: |src| == n ==> Splice(c, off, Repeated(src))[off..off + n] == src
  {
    if n <= CHUNK {
      forall src: seq<byte> | |src| == n ensures Splice(c, off, Repeated(src))[off..off + n] == src {
        assert Repeated(src) == src;
      }
    } else {
      var src: seq<byte> := seq(n, x => if x == CHUNK then 1 else 0);
      assert Splice(c, off, Repeated(src))[off..off + n] == Repeated(src);
      assert Repeated(src)[CHUNK] == src[0] != src[CHUNK];
    }
  }

  lemma SpliceTwice(s: seq<byte>, off: nat, a: seq<byte>, b: seq<byte>)
    requires off <= |s|
    ensures off + |a| <= |Splice(s, off, a)|
    ensures Splice(Splice(s, off, a), off + |a|, b) == Splice(s, off, a + b)
  {
  }

  lemma SplicedTrans(u: Vol, v: Vol, w: Vol, g: Geo, i: nat, off: nat, a: seq<byte>, b: seq<byte>)
    requires Spliced(u, v, g, i, off, a) && Spliced(v, w, g, i, off + |a|, b)
    ensures Spliced(u, w, g, i, off, a + b)
  {
    hide OthersKept, Contents;
    OthersKeptTrans(u, v, w, g, i);
    SpliceTwice(Contents(u, g, i), off, a, b);
  }

  lemma SplicedNothing(v: Vol, g: Geo, i: nat, off: nat)
    requires Shape(v, g) && Inum(g, i) && off <= v.tab[i].size <= MAX_BLOCKS * BLOCK_SIZE
    ensures Spliced(v, v, g, i, off, [])
  {
    hide Contents;
    var c := Contents(v, g, i);
    assert Splice(c, off, []) == c;
  }

  /** A splice makes the file reach at least its end and keeps it in use. */
  lemma SplicedSize(v: Vol, w: Vol, g: Geo, i: nat, off: nat, src: seq<byte>)
    requires Spliced(v, w, g, i, off, src)
    ensures w.tab[i].size == Max(v.tab[i].size, off + |src|) <= MAX_BLOCKS * BLOCK_SIZE
    ensures w.tab[i].typ == v.tab[i].typ && |w.tab| == |v.tab| == g.ninodes
  {
    hide OthersKept;
    assert |Contents(w, g, i)| == |Splice(Contents(v, g, i), off, src)|;
  }

  /** The bytes of one chunk, as they continue the repeated buffer. */
  lemma ChunkBytes(src: seq<byte>, i: nat, n1: nat)
    requires i + n1 <= |src| && Wrap(i) == 0 && n1 <= CHUNK
    ensures Repeated(src)[..i] + src[..n1] == Repeated(src)[..i + n1]
  {
    var r := Repeated(src);
    hide Repeated, Wrap;
    forall x | 0 <= x < n1 ensures r[i..i + n1][x] == src[..n1][x] { WrapStep(i, x); }
    assert r[..i + n1] == r[..i] + r[i..i + n1];
  }

  /** After `n` bytes: the repeated buffer has been spliced in so far. */
  ghost predicate Written(v: Vol, u: Vol, g: Geo, i: nat, off: nat, src: seq<byte>, n: nat) {
    && n <= |src| && i < |v.tab| && i < |u.tab| && (n == 0 ==> u == v)
    && (n > 0 ==> off <= v.tab[i].size && off + n <= MAX_BLOCKS * BLOCK_SIZE)
    && (off <= v.tab[i].size ==> Spliced(v, u, g, i, off, Repeated(src)[..n]) && off + n <= u.tab[i].size)
  }

  lemma WrittenStarts(v: Vol, g: Geo, i: nat, off: nat, src: seq<byte>)
    requires Shape(v, g) && Inum(g, i) && v.tab[i].size <= MAX_BLOCKS * BLOCK_SIZE
    ensures Written(v, v, g, i, off, src, 0)
  {
    hide Spliced, Repeated;
    assert Repeated(src)[..0] == [];
    if off <= v.tab[i].size { SplicedNothing(v, g, i, off); }
  }

  lemma WrittenStep(v: Vol, u: Vol, w: Vol, g: Geo, i: nat, off: nat, src: seq<byte>, n: nat, m: nat)
    requires Written(v, u, g, i, off, src, n) && n + m <= |src| && Wrap(n) == 0 && 0 < m <= CHUNK
    requires Spliced(u, w, g, i, off + n, src[..m]) && off + n <= u.tab[i].size
    ensures Written(v, w, g, i, off, src, n + m) && w.tab[i].typ == u.tab[i].typ && |w.tab| == |u.tab|
  {
    hide Spliced, Repeated, Wrap;
    ChunkBytes(src, n, m);
    if n == 0 { assert off <= v.tab[i].size; }
    SplicedTrans(v, u, w, g, i, off, Repeated(src)[..n], src[..m]);
    SplicedSize(v, w, g, i, off, Repeated(src)[..n + m]);
    SplicedSize(u, w, g, i, off + n, src[..m]);
  }

  datatype Outcome = Done | Error | Panicked

  /** The chunk loop.  On success the file holds the repeated buffer from the
      old offset on and the offset has moved behind it.  It succeeds, unless the
      kernel panics, exactly if the file is writable and the whole range is
      within the file's reach; otherwise whole chunks at most have been written.
      Every chunk stays within the ten blocks its log operation reserves. */
  method Write(fs: Fs, f: File, src: seq<byte>) returns (r: Outcome)
    requires fs.Valid() && InUse(fs.vol, fs.g, f.inode) && fs.vol.tab[f.inode].typ != DEVICE
    requires |src| < 0x1_0000_0000
    modifies fs, f`offset
    ensures r == Done ==> fs.Valid() && f.offset == old(f.offset) + |src|
    ensures r == Done && src != [] ==> Spliced(old(fs.vol), fs.vol, fs.g, f.inode, old(f.offset), Repeated(src))
    ensures r != Panicked ==>
              (r == Done <==> f.writable && (src == [] || (old(f.offset) <= old(fs.vol).tab[f.inode].size
                                                        && old(f.offset) + |src| <= MAX_BLOCKS * BLOCK_SIZE)))
    ensures r == Error ==> fs.Valid() && old(f.offset) <= f.offset <= old(f.offset) + |src|
    ensures r == Error && f.offset == old(f.offset) ==> fs.vol == old(fs.vol)
    ensures r == Error && f.offset > old(f.offset) ==>
              var done := f.offset - old(f.offset);
              && Wrap(done) == 0
              && Spliced(old(fs.vol), fs.vol, fs.g, f.inode, old(f.offset), Repeated(src)[..done])
  {
    hide Owned, Settled, Spliced, Repeated, Fits, Wrap, Follows, Grows, Cost, Overwrote, Shape;
    if !f.writable {
      return Error;
    }
    ghost var v, off := fs.vol, f.offset;
    SizeBound(v, fs.g, fs.book, f.inode);
    OwnedSizes(fs.Now(), fs.g);
    WrittenStarts(v, fs.g, f.inode, off, src);
    var i := 0;
    assert Wrap(0) == 0 by { WrapZero(); }
    while i < |src|
      invariant 0 <= i <= |src| && f.offset == off + i && (Wrap(i) == 0 || i == |src|)
      invariant fs.Valid() && InUse(fs.vol, fs.g, f.inode) && fs.vol.tab[f.inode].typ != DEVICE
      invariant Written(v, fs.vol, fs.g, f.inode, off, src, i)
    {
      var n1 := if |src| - i > CHUNK then CHUNK else |src| - i;
      fs.dirty := {};
      ghost var before := fs.vol;
      var w := fs.InodeWrite(f.inode, src[..n1], f.offset);
      if w == Refused {
        return Error;
      }
      if w == Panic {
        return Panicked;
      }
      assert |fs.dirty| <= 10 by { assert fs.dirty - {} == fs.dirty; }
      WrittenStep(v, before, fs.vol, fs.g, f.inode, off, src, i, n1);
      WrapStep(i, 0);
      f.offset := f.offset + n1;
      i := i + n1;
    }
    assert Repeated(src)[..i] == Repeated(src);
    r := Done;
  }

  lemma WrapZero()
    ensures Wrap(0) == 0
  {
  }
}
