/**
 * Paths of the filesystem model. A path is the list of its components, so
 * "files/abc123" is ["files", "abc123"] and os.path.join(d, name) for a base
 * name is d + [name]. Path strings that may hold separators (the part of a
 * manifest key after the namespace prefix, a hash) become components through
 * Split, whose inverse is Unsplit.
 */
module Paths {

  type Path = seq<string>

  /** The separator os.path.join puts between components on POSIX. */
  const Separator: char := '/'

  /** The directory that holds p. */
  function Parent(p: Path): Path
    requires |p| > 0
  {
    p[..|p| - 1]
  }

  /** p is d itself or lies inside d at any depth. */
  predicate AtOrUnder(p: Path, d: Path) {
    |d| <= |p| && p[..|d|] == d
  }

  /** p lies strictly inside directory d, at any depth. */
  predicate Under(p: Path, d: Path) {
    |d| < |p| && p[..|d|] == d
  }

  /** p is an entry directly inside directory d. */
  predicate ChildOf(p: Path, d: Path) {
    |p| == |d| + 1 && p[..|d|] == d
  }

  /** Neither path is the other one or lies inside it. */
  predicate Disjoint(a: Path, b: Path) {
    !AtOrUnder(a, b) && !AtOrUnder(b, a)
  }

  /** The components of a path string: the pieces between its separators. */
  function Split(s: string): (r: Path)
    ensures |r| > 0
    ensures forall i :: 0 <= i < |r| ==> Separator !in r[i]
    ensures |r| == 1 ==> r[0] == s
  {
    if s == [] then [""]
    else
      var rest := Split(s[1..]);
      if s[0] == Separator then [""] + rest
      else [[s[0]] + rest[0]] + rest[1..]
  }

  /** The path string with the given components, separated by '/'. */
  function Unsplit(p: Path): string
    requires |p| > 0
  {
    if |p| == 1 then p[0] else p[0] + [Separator] + Unsplit(p[1..])
  }

  /** Splitting a string and joining its components gives the string back. */
  lemma {:induction false} UnsplitSplit(s: string)
    ensures Unsplit(Split(s)) == s
  {
    if s != [] {
      var rest := Split(s[1..]);
      UnsplitSplit(s[1..]);
      var r := Split(s);
      if s[0] == Separator {
        assert r[1..] == rest;
      } else if |rest| > 1 {
        assert r[1..] == rest[1..];
        calc {
          Unsplit(r);
          r[0] + [Separator] + Unsplit(rest[1..]);
          [s[0]] + (rest[0] + [Separator] + Unsplit(rest[1..]));
          [s[0]] + Unsplit(rest);
          s;
        }
      }
    }
  }

  /** A string without separators is a single component. */
  lemma {:induction false} SplitComponent(s: string)
    requires Separator !in s
    ensures Split(s) == [s]
  {
    if s != [] {
      SplitComponent(s[1..]);
    }
  }

  /** A component followed by a separator splits off as the first component. */
  lemma {:induction false} SplitAfterComponent(a: string, b: string)
    requires Separator !in a
    ensures Split(a + [Separator] + b) == [a] + Split(b)
  {
    var s := a + [Separator] + b;
    if a != [] {
      SplitAfterComponent(a[1..], b);
      assert s[1..] == a[1..] + [Separator] + b;
      var rest := Split(s[1..]);
      assert rest[0] == a[1..] && rest[1..] == Split(b);
      assert [s[0]] + rest[0] == a;
    } else {
      assert s[1..] == b;
    }
  }

  /** Joining separator-free components and splitting again gives the components back. */
  lemma {:induction false} SplitUnsplit(p: Path)
    requires |p| > 0
    requires forall i :: 0 <= i < |p| ==> Separator !in p[i]
    ensures Split(Unsplit(p)) == p
  {
    if |p| == 1 {
      SplitComponent(p[0]);
    } else {
      SplitUnsplit(p[1..]);
      SplitAfterComponent(p[0], Unsplit(p[1..]));
    }
  }

  /** Two path strings have the same components exactly when they are equal. */
  lemma SplitInjective(s: string, t: string)
    ensures Split(s) == Split(t) <==> s == t
  {
    UnsplitSplit(s);
    UnsplitSplit(t);
  }
}
