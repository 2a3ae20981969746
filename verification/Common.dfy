/** A few notions that several components share. */
module Common {

  datatype Option<+T> = None | Some(value: T)

  predicate Distinct<T(==)>(s: seq<T>) {
    forall i, j :: 0 <= i < j < |s| ==> s[i] != s[j]
  }

  function Repeat<T>(n: nat, x: T): (s: seq<T>)
    ensures |s| == n && forall i :: 0 <= i < n ==> s[i] == x
  {
    if n == 0 then [] else Repeat(n - 1, x) + [x]
  }

  lemma {:induction false} SubsetSize<T>(a: set<T>, b: set<T>)
    requires a <= b
    ensures |a| <= |b|
  {
    if a != {} {
      var x :| x in a;
      SubsetSize(a - {x}, b - {x});
    }
  }

  /** A C string: what lies in front of the first NUL. */
  function CString<T(==)>(s: seq<T>, nul: T): seq<T> {
    if s == [] || s[0] == nul then [] else [s[0]] + CString(s[1..], nul)
  }

  /** Whatever lies behind the NUL. */
  lemma {:induction false} CStringStops<T>(s: seq<T>, nul: T, junk: seq<T>)
    requires nul !in s
    ensures CString(s + [nul] + junk, nul) == s
  {
    var buf := s + [nul] + junk;
    if s != [] {
      CStringStops(s[1..], nul, junk);
      assert buf[1..] == s[1..] + [nul] + junk;
    }
  }
}
