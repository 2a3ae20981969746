/** Path names: the text loops of fs/pathname.c.  A path is a C string without
    its NUL. */
module Paths {
  import opened Blocks
  import opened Directory

  const SLASH: byte := 47

  type Path = seq<byte>

  // ------------------------------------------------------------------
  // Components
  // ------------------------------------------------------------------

  /** The number of leading slashes. */
  function Slashes(s: Path): (n: nat)
    ensures n <= |s| && (n < |s| ==> s[n] != SLASH) && forall j :: 0 <= j < n ==> s[j] == SLASH
  {
    if s == [] || s[0] != SLASH then 0
    else
      var n := Slashes(s[1..]);
      assert forall j :: 1 <= j < |s| ==> s[j] == s[1..][j - 1];
      n + 1
  }

  /** The length of the first component of a path that starts with one. */
  function Word(s: Path): (n: nat)
    ensures n <= |s| && (n < |s| ==> s[n] == SLASH) && forall j :: 0 <= j < n ==> s[j] != SLASH
  {
    if s == [] || s[0] == SLASH then 0
    else
      var n := Word(s[1..]);
      assert forall j :: 1 <= j < |s| ==> s[j] == s[1..][j - 1];
      n + 1
  }

  /** The slash-separated components. */
  function Comps(s: Path): (r: seq<Name>)
    ensures forall i :: 0 <= i < |r| ==> r[i] != []
    decreases |s|
  {
    var a := Slashes(s);
    if a == |s| then [] else
    var n := Word(s[a..]);
    assert s[a] == s[a..][0];
    [s[a..a + n]] + Comps(s[a + n..])
  }

  predicate AllSlashes(s: Path, from: nat, to: nat) {
    from <= to <= |s| && forall j :: from <= j < to ==> s[j] == SLASH
  }

  /** `s[q..e]` is a component: no slash in it, and one or the end behind it. */
  predicate IsWord(s: Path, q: nat, e: nat) {
    q < e <= |s| && (e < |s| ==> s[e] == SLASH) && forall j :: q <= j < e ==> s[j] != SLASH
  }

  lemma {:induction false} SlashesAre(s: Path, n: nat)
    requires AllSlashes(s, 0, n) && (n < |s| ==> s[n] != SLASH)
    ensures Slashes(s) == n
  {
  }

  lemma {:induction false} WordIs(s: Path, q: nat, e: nat)
    requires IsWord(s, q, e)
    ensures Word(s[q..]) == e - q
  {
    hide Word;
    var t, n := s[q..], Word(s[q..]);
    assert forall j :: 0 <= j < |t| ==> t[j] == s[q + j];
  }

  /** Taking the first component off. */
  lemma {:induction false} CompsStep(s: Path, q: nat, e: nat)
    requires AllSlashes(s, 0, q) && IsWord(s, q, e)
    ensures Comps(s) == [s[q..e]] + Comps(s[e..])
  {
    hide Slashes, Word;
    SlashesAre(s, q);
    WordIs(s, q, e);
  }

  lemma {:induction false} CompsNone(s: Path)
    requires AllSlashes(s, 0, |s|)
    ensures Comps(s) == []
  {
    hide Slashes, Word;
    SlashesAre(s, |s|);
  }

  /** The same from a position on. */
  lemma {:induction false} CompsFrom(s: Path, at: nat, q: nat, e: nat)
    requires at <= q && AllSlashes(s, at, q) && IsWord(s, q, e)
    ensures Comps(s[at..]) == [s[q..e]] + Comps(s[e..])
  {
    hide Comps;
    var t := s[at..];
    CompsStep(t, q - at, e - at);
    assert t[q - at..e - at] == s[q..e] && t[e - at..] == s[e..];
  }

  /** Slashes in front make no difference. */
  lemma {:induction false} SkipSlashes(s: Path, n: nat)
    requires AllSlashes(s, 0, n)
    ensures Comps(s[n..]) == Comps(s)
  {
    hide Slashes, Word;
    var a := Slashes(s);
    if a == |s| {
      CompsNone(s);
      CompsNone(s[n..]);
    } else {
      var e := a + Word(s[a..]);
      FirstWord(s, a);
      CompsStep(s, a, e);
      CompsFrom(s, n, a, e);
    }
  }

  lemma {:induction false} FirstWord(s: Path, a: nat)
    requires a < |s| && s[a] != SLASH
    ensures IsWord(s, a, a + Word(s[a..]))
  {
    hide Word;
    var t := s[a..];
    assert forall j :: 0 <= j < |t| ==> t[j] == s[a + j];
    assert t[0] == s[a];
    var n := Word(t);
    forall j | a <= j < a + n ensures s[j] != SLASH { assert t[j - a] != SLASH; }
    assert n < |t| ==> t[n] == s[a + n];
  }

  // ------------------------------------------------------------------
  // path_skipelem
  // ------------------------------------------------------------------

  /** path_skipelem from position `at`: the first component goes to `name`, and
      the rest of the path has the other ones; NULL if there is none. */
  method SkipElem(path: Path, at: nat) returns (more: bool, p: nat, name: Name, ghost q: nat)
    requires at <= |path|
    ensures more <==> Comps(path[at..]) != []
    ensures more ==> at <= q && AllSlashes(path, at, q) && IsWord(path, q, p) && name == path[q..p]
    ensures more ==> Comps(path[at..]) == [name] + Comps(path[p..])
  {
    hide Comps;
    p := at;
    while p < |path| && path[p] == SLASH
      invariant at <= p <= |path| && AllSlashes(path, at, p)
    {
      p := p + 1;
    }
    q, name := p, [];
    if p == |path| {
      CompsNone(path[at..]);
      return false, p, [], q;
    }
    while true
      invariant q <= p < |path| && name == path[q..p]
      invariant forall j :: q <= j <= p ==> path[j] != SLASH
      decreases |path| - p
    {
      name := name + [path[p]];
      p := p + 1;
      if p == |path| || path[p] == SLASH { break; }
    }
    CompsFrom(path, at, q, p);
    more := true;
  }

  // ------------------------------------------------------------------
  // path_parent
  // ------------------------------------------------------------------

  /** Appending a component. */
  lemma {:induction false} CompsAppend(s: Path, w: Name)
    requires w != [] && SLASH !in w && (s == [] || s[|s| - 1] == SLASH)
    ensures Comps(s + w) == Comps(s) + [w]
    decreases |s|
  {
    hide Slashes, Word, Comps;
    var t, a := s + w, Slashes(s);
    if a == |s| {
      CompsNone(s);
      CompsStep(t, a, |t|);
      assert t[a..|t|] == w && t[|t|..] == [];
      CompsNone([]);
    } else {
      var e := a + Word(s[a..]);
      FirstWord(s, a);
      assert e < |s|;
      CompsStep(s, a, e);
      CompsStep(t, a, e);
      assert t[a..e] == s[a..e] && t[e..] == s[e..] + w;
      CompsAppend(s[e..], w);
    }
  }

  predicate Absolute(s: Path) { s != [] && s[0] == SLASH }

  /** What path_parent has found: `parent` is the text before the component
      `path[p..at]`. */
  ghost predicate Cut(path: Path, p: nat, at: nat, name: Name) {
    && IsWord(path, p, at) && name == path[p..at] && (p == 0 || path[p - 1] == SLASH)
    && Comps(path[..at]) == Comps(path[..p]) + [name]
  }

  lemma {:induction false} CutHere(path: Path, at: nat, q: nat, e: nat)
    requires at <= q && AllSlashes(path, at, q) && IsWord(path, q, e)
    requires at == 0 || (at < q && at <= |path|)
    ensures Cut(path, q, e, path[q..e])
  {
    hide Comps;
    assert q == 0 || path[q - 1] == SLASH;
    assert path[..e] == path[..q] + path[q..e];
    CompsAppend(path[..q], path[q..e]);
  }

  /** Trailing slashes make no difference. */
  lemma {:induction false} TrailingSlashes(s: Path, n: nat)
    requires n <= |s| && AllSlashes(s, n, |s|)
    ensures Comps(s) == Comps(s[..n])
    decreases |s|
  {
    hide Slashes, Word, Comps;
    var a := Slashes(s);
    if a == |s| {
      CompsNone(s);
      CompsNone(s[..n]);
    } else {
      var e := a + Word(s[a..]);
      FirstWord(s, a);
      assert s[e - 1] != SLASH;
      CompsStep(s, a, e);
      CompsStep(s[..n], a, e);
      assert s[..n][a..e] == s[a..e] && s[..n][e..] == s[e..][..n - e];
      TrailingSlashes(s[e..], n - e);
    }
  }

  /** path_parent: `parent` gets everything before the last component and `name`
      the component; without a component `parent` is empty and `name` is not
      written. */
  method PathParent(path: Path, name0: Name) returns (parent: Path, name: Name)
    ensures Comps(path) == [] ==> parent == [] && name == name0
    ensures Comps(path) != [] ==> Comps(path) == Comps(parent) + [name] && name != []
    ensures Comps(path) != [] ==> parent <= path && |parent| < |path| && (Absolute(parent) <==> Absolute(path))
  {
    hide Comps;
    name, parent := name0, [];
    var p, at := 0, 0;
    assert path[0..] == path;
    while true
      invariant 0 <= p <= at <= |path| && parent == path[..p]
      invariant at == 0 ==> name == name0
      invariant at > 0 ==> Cut(path, p, at, name)
      invariant at > 0 ==> Comps(path) != []
      decreases |path| - at
    {
      var more, e, w, _ := SkipElem(path, at);
      if !more {
        RestIsSlashes(path, at);
        TrailingSlashes(path, at);
        break;
      }
      var q := e - |w|;
      CutHere(path, at, q, e);
      if at == 0 { CompsFrom(path, 0, q, e); }
      parent := parent + path[p..q];
      p, at, name := q, e, w;
    }
    assert at == 0 ==> path[0..] == path;
  }

  lemma {:induction false} RestIsSlashes(s: Path, at: nat)
    requires at <= |s| && Comps(s[at..]) == []
    ensures AllSlashes(s, at, |s|)
  {
    hide Slashes, Word;
    var t, a := s[at..], Slashes(s[at..]);
    assert a == |t|;
    forall j | at <= j < |s| ensures s[j] == SLASH { assert t[j - at] == SLASH; }
  }
}
