/** The on-disk side of the write-ahead log: commit and recovery as sequences
    of single-block writes, and what a crash between any two of them leaves. */
module Journal {
  import opened Blocks
  import opened Common
  import opened LogProtocol

  type Disk = seq<Block>

  datatype Write = Write(at: nat, data: Block)

  /** The disk after the writes `ws`, in order. */
  function Apply(d: Disk, ws: seq<Write>): (r: Disk)
    ensures |r| == |d|
  {
    if ws == [] then d
    else
      var e := Apply(d, ws[..|ws| - 1]);
      var w := ws[|ws| - 1];
      if w.at < |e| then e[w.at := w.data] else e
  }

  // ------------------------------------------------------------------
  // The header block
  // ------------------------------------------------------------------

  predicate Entries(lh: seq<nat>) {
    |lh| <= LOG_SIZE && forall i :: 0 <= i < |lh| ==> lh[i] < 0x1_0000_0000
  }

  /** The header block after write_head has stored `n` and `k` entries; what
      lies behind them in the block is left alone. */
  function PutEntries(b: Block, lh: seq<nat>, k: nat): (r: Block)
    requires Entries(lh) && k <= |lh|
    ensures Word(r, 0) == |lh|
    ensures forall i :: 0 <= i < k ==> Word(r, i + 1) == lh[i]
  {
    if k == 0 then PutWord(b, 0, |lh|)
    else PutWord(PutEntries(b, lh, k - 1), k, lh[k - 1])
  }

  function PutHead(b: Block, lh: seq<nat>): Block
    requires Entries(lh)
  {
    PutEntries(b, lh, |lh|)
  }

  /** What read_head finds; a count above LOG_SIZE never occurs on a disk that
      this code wrote. */
  function ReadHead(b: Block): seq<nat> {
    if Word(b, 0) <= LOG_SIZE then seq(Word(b, 0), i requires 0 <= i < LOG_SIZE => Word(b, i + 1))
    else []
  }

  lemma HeadRoundTrip(b: Block, lh: seq<nat>)
    requires Entries(lh)
    ensures ReadHead(PutHead(b, lh)) == lh
  {
    hide Word, PutWord, PutEntries;
    var r := PutHead(b, lh);
    assert forall i :: 0 <= i < |lh| ==> Word(r, i + 1) == lh[i];
  }

  // ------------------------------------------------------------------
  // Recovery, block by block
  // ------------------------------------------------------------------

  predicate Home(d: Disk, ls: nat, b: int) {
    0 <= b < |d| && !(ls <= b <= ls + LOG_SIZE)
  }

  predicate Geometry(d: Disk, ls: nat) {
    ls + LOG_SIZE < |d| <= 0x1_0000_0000
  }

  predicate HomeEntries(d: Disk, ls: nat, lh: seq<nat>) {
    |lh| <= LOG_SIZE && Distinct(lh) && forall i :: 0 <= i < |lh| ==> Home(d, ls, lh[i])
  }

  predicate GoodDisk(d: Disk, ls: nat) {
    Geometry(d, ls) && Word(d[ls], 0) <= LOG_SIZE && HomeEntries(d, ls, ReadHead(d[ls]))
  }

  /** A position of `b` in `q`, or the length of `q` if there is none. */
  ghost function IndexOf(q: seq<nat>, b: int): (k: nat)
    ensures k <= |q| && (k < |q| ==> q[k] == b) && (k == |q| ==> b !in q)
  {
    if b in q then var i :| 0 <= i < |q| && q[i] == b; i else |q|
  }

  lemma IndexOfIs(q: seq<nat>, k: nat)
    requires Distinct(q) && k < |q|
    ensures IndexOf(q, q[k]) == k
  {
  }

  /** The content a home block has once recovery has run to its end: the log's
      copy if the header names the block, else what is on the disk. */
  ghost function Healed(d: Disk, ls: nat, b: int): Block
    requires GoodDisk(d, ls) && Home(d, ls, b)
  {
    var k := IndexOf(ReadHead(d[ls]), b);
    if k < |ReadHead(d[ls])| then d[ls + 1 + k] else d[b]
  }

  // ------------------------------------------------------------------
  // The writes of commit and of recover_from_log
  // ------------------------------------------------------------------

  function LogWrites(ls: nat, vals: seq<Block>): seq<Write> {
    seq(|vals|, i requires 0 <= i < |vals| => Write(ls + 1 + i, vals[i]))
  }

  function InstallWrites(lh: seq<nat>, vals: seq<Block>): seq<Write>
    requires |lh| == |vals|
  {
    seq(|lh|, i requires 0 <= i < |lh| => Write(lh[i], vals[i]))
  }

  function HeadWrite(d: Disk, ls: nat, lh: seq<nat>): Write
    requires ls < |d| && Entries(lh)
  {
    Write(ls, PutHead(d[ls], lh))
  }

  /** commit: copy to the log, write the header, install, clear the header. */
  function CommitWrites(d: Disk, ls: nat, lh: seq<nat>, vals: seq<Block>): seq<Write>
    requires ls < |d| && Entries(lh) && |lh| == |vals|
  {
    if lh == [] then []
    else LogWrites(ls, vals) + [HeadWrite(d, ls, lh)] + InstallWrites(lh, vals)
         + [Write(ls, PutHead(PutHead(d[ls], lh), []))]
  }

  function LogCopies(d: Disk, ls: nat, n: nat): (r: seq<Block>)
    requires ls + n < |d|
    ensures |r| == n && forall k :: 0 <= k < n ==> r[k] == d[ls + 1 + k]
  {
    seq(n, i requires 0 <= i < n => d[ls + 1 + i])
  }

  /** recover_from_log: install whatever the header names, clear the header. */
  function RecoverWrites(d: Disk, ls: nat): seq<Write>
    requires GoodDisk(d, ls)
  {
    var lh := ReadHead(d[ls]);
    InstallWrites(lh, LogCopies(d, ls, |lh|)) + [Write(ls, PutHead(d[ls], []))]
  }

  /** The disk with every block named in `lh` replaced by its value. */
  ghost function Overlaid(d: Disk, lh: seq<nat>, vals: seq<Block>): (r: Disk)
    requires |lh| == |vals|
    ensures |r| == |d|
  {
    seq(|d|, b requires 0 <= b < |d| =>
      if IndexOf(lh, b) < |lh| then vals[IndexOf(lh, b)] else d[b])
  }

  ghost predicate SameHome(d: Disk, e: Disk, ls: nat) {
    |d| == |e| && forall b :: Home(d, ls, b) ==> d[b] == e[b]
  }

  /** Recovery of `e` would produce the home blocks of `g`. */
  ghost predicate HealsTo(e: Disk, ls: nat, g: Disk) {
    |e| == |g| && GoodDisk(e, ls) && forall b {:trigger Healed(e, ls, b)} :: Home(e, ls, b) ==> Healed(e, ls, b) == g[b]
  }

  /** `e` holds the home blocks of `g` and needs no recovery. */
  ghost predicate Clean(e: Disk, ls: nat, g: Disk) {
    GoodDisk(e, ls) && ReadHead(e[ls]) == [] && SameHome(e, g, ls)
  }

  // ------------------------------------------------------------------
  // States between two writes
  // ------------------------------------------------------------------

  lemma {:induction false} ApplyAppend(d: Disk, ws: seq<Write>, vs: seq<Write>)
    ensures Apply(d, ws + vs) == Apply(Apply(d, ws), vs)
  {
    if vs == [] {
      assert ws + vs == ws;
    } else {
      ApplyAppend(d, ws, vs[..|vs| - 1]);
      assert (ws + vs)[..|ws + vs| - 1] == ws + vs[..|vs| - 1];
    }
  }

  lemma ApplyNext(d: Disk, ws: seq<Write>, k: nat)
    requires k < |ws| && ws[k].at < |d|
    ensures Apply(d, ws[..k + 1]) == Apply(d, ws[..k])[ws[k].at := ws[k].data]
  {
    assert ws[..k + 1][..k] == ws[..k];
  }

  /** After `k` log copies exactly the log slots 1..k differ. */
  lemma {:induction false} AfterLogWrites(d: Disk, ls: nat, vals: seq<Block>, k: nat)
    requires Geometry(d, ls) && k <= |vals| <= LOG_SIZE
    ensures var e := Apply(d, LogWrites(ls, vals)[..k]);
            forall b :: 0 <= b < |d| ==>
              e[b] == if ls + 1 <= b < ls + 1 + k then vals[b - ls - 1] else d[b]
  {
    hide Word, PutEntries;
    if k > 0 {
      AfterLogWrites(d, ls, vals, k - 1);
      ApplyNext(d, LogWrites(ls, vals), k - 1);
    }
  }

  /** After `k` installs exactly the first `k` named blocks hold their new content. */
  lemma {:induction false} AfterInstalls(d: Disk, ls: nat, lh: seq<nat>, vals: seq<Block>, k: nat)
    requires Geometry(d, ls) && HomeEntries(d, ls, lh) && |lh| == |vals| && k <= |lh|
    ensures var e := Apply(d, InstallWrites(lh, vals)[..k]);
            forall b :: 0 <= b < |d| ==> e[b] == if IndexOf(lh, b) < k then vals[IndexOf(lh, b)] else d[b]
  {
    hide Word, PutEntries;
    if k > 0 {
      AfterInstalls(d, ls, lh, vals, k - 1);
      ApplyNext(d, InstallWrites(lh, vals), k - 1);
      IndexOfIs(lh, k - 1);
    }
  }

  /** The disk once the header is written and `j` blocks are installed. */
  function Installed(d: Disk, ls: nat, lh: seq<nat>, vals: seq<Block>, j: nat): Disk
    requires ls < |d| && Entries(lh) && |lh| == |vals| && j <= |lh|
  {
    Apply(Apply(d, LogWrites(ls, vals) + [HeadWrite(d, ls, lh)]), InstallWrites(lh, vals)[..j])
  }

  lemma HeaderDown(d: Disk, ls: nat, lh: seq<nat>, vals: seq<Block>)
    requires Geometry(d, ls) && HomeEntries(d, ls, lh) && |lh| == |vals|
    ensures var m := Apply(d, LogWrites(ls, vals) + [HeadWrite(d, ls, lh)]);
            && m[ls] == PutHead(d[ls], lh)
            && LogCopies(m, ls, |lh|) == vals
            && SameHome(d, m, ls)
  {
    hide Word, PutEntries;
    var ws := LogWrites(ls, vals) + [HeadWrite(d, ls, lh)];
    AfterLogWrites(d, ls, vals, |vals|);
    assert LogWrites(ls, vals)[..|vals|] == LogWrites(ls, vals);
    assert ws[..|ws| - 1] == LogWrites(ls, vals);
    assert Apply(d, ws) == Apply(d, LogWrites(ls, vals))[ls := PutHead(d[ls], lh)];
  }

  /** Installing touches no block of the log area. */
  lemma InstallKeepsLog(d: Disk, ls: nat, lh: seq<nat>, vals: seq<Block>, j: nat)
    requires Geometry(d, ls) && HomeEntries(d, ls, lh) && |lh| == |vals| && j <= |lh|
    ensures var e := Apply(d, InstallWrites(lh, vals)[..j]);
            forall b :: ls <= b <= ls + LOG_SIZE ==> e[b] == d[b]
  {
    hide Word, PutEntries;
    AfterInstalls(d, ls, lh, vals, j);
    forall b | ls <= b <= ls + LOG_SIZE ensures IndexOf(lh, b) == |lh| {
      assert IndexOf(lh, b) < |lh| ==> Home(d, ls, lh[IndexOf(lh, b)]);
    }
  }

  lemma CopyAt(d: Disk, ls: nat, n: nat, k: nat)
    requires k < n && ls + n < |d|
    ensures LogCopies(d, ls, n)[k] == d[ls + 1 + k]
  {
  }

  lemma HealedFrom(d: Disk, ls: nat, lh: seq<nat>, b: int)
    requires GoodDisk(d, ls) && Home(d, ls, b) && lh == ReadHead(d[ls])
    ensures Healed(d, ls, b) == if IndexOf(lh, b) < |lh| then d[ls + 1 + IndexOf(lh, b)] else d[b]
  {
    hide Word, PutEntries;
  }

  /** Installing `j` of the blocks the header names changes nothing about what
      recovery will produce; installing all of them produces it. */
  lemma InstallHeals(m: Disk, ls: nat, g: Disk, j: nat)
    requires HealsTo(m, ls, g) && j <= |ReadHead(m[ls])|
    ensures var lh := ReadHead(m[ls]);
            var e := Apply(m, InstallWrites(lh, LogCopies(m, ls, |lh|))[..j]);
            && HealsTo(e, ls, g) && e[ls] == m[ls]
            && (j == |lh| ==> SameHome(e, g, ls))
  {
    hide Word, PutEntries;
    var lh := ReadHead(m[ls]);
    var vals := LogCopies(m, ls, |lh|);
    var e := Apply(m, InstallWrites(lh, vals)[..j]);
    InstallKeepsLog(m, ls, lh, vals, j);
    assert e[ls] == m[ls];
    forall b | Home(e, ls, b) ensures Healed(e, ls, b) == g[b] && (j == |lh| ==> e[b] == g[b]) {
      var k := IndexOf(lh, b);
      assert e[b] == if k < j then vals[k] else m[b] by { AfterInstalls(m, ls, lh, vals, j); }
      HealedFrom(m, ls, lh, b);
      HealedFrom(e, ls, lh, b);
      if k < |lh| { CopyAt(m, ls, |lh|, k); }
    }
  }

  lemma InstalledHeals(d: Disk, ls: nat, lh: seq<nat>, vals: seq<Block>, j: nat)
    requires Geometry(d, ls) && HomeEntries(d, ls, lh) && |lh| == |vals| && j <= |lh|
    ensures var e := Installed(d, ls, lh, vals, j);
            && HealsTo(e, ls, Overlaid(d, lh, vals))
            && e[ls] == PutHead(d[ls], lh)
            && (j == |lh| ==> SameHome(e, Overlaid(d, lh, vals), ls))
  {
    hide Word, PutEntries;
    HeaderDown(d, ls, lh, vals);
    HeadRoundTrip(d[ls], lh);
    var m := Apply(d, LogWrites(ls, vals) + [HeadWrite(d, ls, lh)]);
    forall b | Home(m, ls, b) ensures Healed(m, ls, b) == Overlaid(d, lh, vals)[b] {
      HealedFrom(m, ls, lh, b);
      assert IndexOf(lh, b) < |lh| ==> LogCopies(m, ls, |lh|)[IndexOf(lh, b)] == vals[IndexOf(lh, b)];
    }
    InstallHeals(m, ls, Overlaid(d, lh, vals), j);
  }

  /** Where a prefix of the commit writes falls. */
  lemma CommitSplit(d: Disk, ls: nat, lh: seq<nat>, vals: seq<Block>, k: nat)
    requires ls < |d| && Entries(lh) && |lh| == |vals| && lh != []
    requires k <= |CommitWrites(d, ls, lh, vals)|
    ensures |CommitWrites(d, ls, lh, vals)| == 2 * |lh| + 2
    ensures var e := Apply(d, CommitWrites(d, ls, lh, vals)[..k]);
            && (k <= |lh| ==> e == Apply(d, LogWrites(ls, vals)[..k]))
            && (|lh| < k <= 2 * |lh| + 1 ==> e == Installed(d, ls, lh, vals, k - |lh| - 1))
            && (k == 2 * |lh| + 2 ==>
                  e == Installed(d, ls, lh, vals, |lh|)[ls := PutHead(PutHead(d[ls], lh), [])])
  {
    hide Word, PutEntries;
    var n := |lh|;
    var ws := CommitWrites(d, ls, lh, vals);
    var pre := LogWrites(ls, vals) + [HeadWrite(d, ls, lh)];
    var ins := InstallWrites(lh, vals);
    if k <= n {
      assert ws[..k] == LogWrites(ls, vals)[..k];
    } else if k <= 2 * n + 1 {
      assert ws[..k] == pre + ins[..k - n - 1];
      ApplyAppend(d, pre, ins[..k - n - 1]);
    } else {
      assert ws[..k] == ws;
      assert ws[..2 * n + 1] == pre + ins[..n];
      ApplyAppend(d, pre, ins[..n]);
      assert ws[..|ws| - 1] == ws[..2 * n + 1];
    }
  }

  lemma CleanHeals(g: Disk, e: Disk, ls: nat)
    requires Clean(e, ls, g)
    ensures HealsTo(e, ls, g)
  {
  }

  /** Crash atomicity of commit: after any prefix of its writes, recovery
      restores every home block to its old content while the header is not yet
      on disk, and to its new content from then on. */
  lemma CommitPrefix(d: Disk, ls: nat, lh: seq<nat>, vals: seq<Block>, k: nat)
    requires GoodDisk(d, ls) && ReadHead(d[ls]) == []
    requires HomeEntries(d, ls, lh) && |lh| == |vals|
    requires k <= |CommitWrites(d, ls, lh, vals)|
    ensures var e := Apply(d, CommitWrites(d, ls, lh, vals)[..k]);
            && HealsTo(e, ls, if k <= |lh| then d else Overlaid(d, lh, vals))
            && (k == |CommitWrites(d, ls, lh, vals)| ==> Clean(e, ls, Overlaid(d, lh, vals)))
  {
    hide Word, PutEntries;
    if lh == [] {
      assert CommitWrites(d, ls, lh, vals)[..k] == [];
      CleanHeals(d, d, ls);
    } else {
      CommitSplit(d, ls, lh, vals, k);
      if k <= |lh| {
        AfterLogWrites(d, ls, vals, k);
        CleanHeals(d, Apply(d, LogWrites(ls, vals)[..k]), ls);
      } else if k <= 2 * |lh| + 1 {
        InstalledHeals(d, ls, lh, vals, k - |lh| - 1);
      } else {
        CommitWhole(d, ls, lh, vals);
      }
    }
  }

  lemma CommitWhole(d: Disk, ls: nat, lh: seq<nat>, vals: seq<Block>)
    requires GoodDisk(d, ls) && HomeEntries(d, ls, lh) && |lh| == |vals|
    ensures var e := Installed(d, ls, lh, vals, |lh|)[ls := PutHead(PutHead(d[ls], lh), [])];
            && HealsTo(e, ls, Overlaid(d, lh, vals)) && Clean(e, ls, Overlaid(d, lh, vals))
  {
    hide Word, PutEntries;
    InstalledHeals(d, ls, lh, vals, |lh|);
    HeadRoundTrip(PutHead(d[ls], lh), []);
  }

  lemma RecoverSplit(d: Disk, ls: nat, k: nat)
    requires GoodDisk(d, ls) && k <= |RecoverWrites(d, ls)|
    ensures var lh := ReadHead(d[ls]); var vals := LogCopies(d, ls, |lh|);
            var e := Apply(d, RecoverWrites(d, ls)[..k]);
            && |RecoverWrites(d, ls)| == |lh| + 1
            && (k <= |lh| ==> e == Apply(d, InstallWrites(lh, vals)[..k]))
            && (k == |lh| + 1 ==>
                  e == Apply(d, InstallWrites(lh, vals)[..|lh|])[ls := PutHead(d[ls], [])])
  {
    hide Word, PutEntries;
    var lh := ReadHead(d[ls]);
    var ins := InstallWrites(lh, LogCopies(d, ls, |lh|));
    var ws := RecoverWrites(d, ls);
    if k <= |lh| {
      assert ws[..k] == ins[..k];
    } else {
      assert ws[..k] == ws && ws[..|lh|] == ins[..|lh|];
      ApplyNext(d, ws, |lh|);
    }
  }

  /** Recovery stopped after any number of its own writes has lost nothing: a
      fresh recovery still arrives at the same content.  Run to its end it
      has put that content in place and cleared the header. */
  lemma RecoverPrefix(d: Disk, ls: nat, g: Disk, k: nat)
    requires HealsTo(d, ls, g) && k <= |RecoverWrites(d, ls)|
    ensures var e := Apply(d, RecoverWrites(d, ls)[..k]);
            && HealsTo(e, ls, g)
            && (k == |RecoverWrites(d, ls)| ==> Clean(e, ls, g))
  {
    hide Word, PutEntries;
    var lh := ReadHead(d[ls]);
    RecoverSplit(d, ls, k);
    if k <= |lh| {
      InstallHeals(d, ls, g, k);
    } else {
      InstallHeals(d, ls, g, |lh|);
      HeadRoundTrip(d[ls], []);
      CleanHeals(g, Apply(d, RecoverWrites(d, ls)[..k]), ls);
    }
  }

  /** The disk after recovery was started and stopped once per element of
      `stops`, each time after that many writes. */
  function Interrupted(d: Disk, ls: nat, stops: seq<nat>): Disk
    decreases stops
  {
    if stops == [] || !GoodDisk(d, ls) || stops[0] > |RecoverWrites(d, ls)| then d
    else Interrupted(Apply(d, RecoverWrites(d, ls)[..stops[0]]), ls, stops[1..])
  }

  lemma {:induction false} InterruptedHeals(d: Disk, ls: nat, g: Disk, stops: seq<nat>)
    requires HealsTo(d, ls, g)
    ensures HealsTo(Interrupted(d, ls, stops), ls, g)
    decreases stops
  {
    hide Word, PutEntries;
    if stops != [] && stops[0] <= |RecoverWrites(d, ls)| {
      RecoverPrefix(d, ls, g, stops[0]);
      InterruptedHeals(Apply(d, RecoverWrites(d, ls)[..stops[0]]), ls, g, stops[1..]);
    }
  }

  /** The crash theorem for one commit: stop it after any prefix of its writes,
      interrupt recovery any number of times, then let recovery finish.  The
      header is clear and the home blocks are all old or all new, new as soon
      as the commit had got past its header write. */
  lemma CrashAtomicity(d: Disk, ls: nat, lh: seq<nat>, vals: seq<Block>, k: nat, stops: seq<nat>)
    requires GoodDisk(d, ls) && ReadHead(d[ls]) == []
    requires HomeEntries(d, ls, lh) && |lh| == |vals|
    requires k <= |CommitWrites(d, ls, lh, vals)|
    ensures var e := Interrupted(Apply(d, CommitWrites(d, ls, lh, vals)[..k]), ls, stops);
            && GoodDisk(e, ls)
            && Clean(Apply(e, RecoverWrites(e, ls)), ls,
                     if k <= |lh| then d else Overlaid(d, lh, vals))
  {
    hide Word, PutEntries;
    var g := if k <= |lh| then d else Overlaid(d, lh, vals);
    CommitPrefix(d, ls, lh, vals, k);
    var c := Apply(d, CommitWrites(d, ls, lh, vals)[..k]);
    InterruptedHeals(c, ls, g, stops);
    var e := Interrupted(c, ls, stops);
    RecoverPrefix(e, ls, g, |RecoverWrites(e, ls)|);
    assert RecoverWrites(e, ls)[..|RecoverWrites(e, ls)|] == RecoverWrites(e, ls);
  }
}
