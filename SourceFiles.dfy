/** The deterministic part of `get_file` in ImageTools/wallpaper.py: which names of a directory
    listing may be chosen as the wallpaper. The random choice and the month sub-directory are
    left out. */
module SourceFiles {

  /** Names the program writes or Windows leaves beside the pictures. */
  const ReservedNames: seq<string> := ["current.bmp", "current.txt", "Thumbs.db"]

  predicate EndsWith(s: string, suffix: string) {
    |suffix| <= |s| && s[|s| - |suffix|..] == suffix
  }

  predicate IsConfigFile(name: string) {
    EndsWith(name, ".json")
  }

  /** Names without a dot are taken to be directories. */
  predicate HasDot(name: string) {
    '.' in name
  }

  /** A name that may be chosen. */
  predicate Eligible(name: string) {
    name !in ReservedNames && !IsConfigFile(name) && HasDot(name)
  }

  /** `list.remove(x)`: drops the first occurrence of x. */
  function RemoveFirst(s: seq<string>, x: string): (r: seq<string>)
    requires x in s
    ensures |r| == |s| - 1
  {
    if s[0] == x then s[1..] else [s[0]] + RemoveFirst(s[1..], x)
  }

  /** A list comprehension with a condition. */
  function Filter(s: seq<string>, keep: string -> bool): (r: seq<string>)
    ensures |r| <= |s|
    ensures forall f :: f in r ==> f in s && keep(f)
  {
    if s == [] then [] else (if keep(s[0]) then [s[0]] else []) + Filter(s[1..], keep)
  }

  /** a can be obtained from b by deleting elements. */
  predicate IsSubsequence(a: seq<string>, b: seq<string>)
    decreases |b|
  {
    || a == []
    || (b != [] && ((a[0] == b[0] && IsSubsequence(a[1..], b[1..])) || IsSubsequence(a, b[1..])))
  }

  predicate NoDuplicates(s: seq<string>) {
    forall i, j :: 0 <= i < j < |s| ==> s[i] != s[j]
  }

  /** The files reached so far by the filtering steps: a subsequence of the listing and, when
      the listing has no repeats, exactly its names that pass `keep`. */
  predicate Reached(files: seq<string>, listing: seq<string>, keep: string -> bool) {
    IsSubsequence(files, listing) && (NoDuplicates(listing) ==> files == Filter(listing, keep))
  }

  /** The names of the listing `get_file` chooses from, in the listing's order. */
  method CandidateFiles(listing: seq<string>) returns (files: seq<string>)
    ensures IsSubsequence(files, listing)
    ensures forall f :: f in files ==> !IsConfigFile(f) && HasDot(f)
    // A directory listing has no repeated names; then exactly the eligible names remain.
    ensures NoDuplicates(listing) ==> files == Filter(listing, Eligible)
  {
    files := listing;
    ghost var all := (f: string) => true;
    SubsequenceReflexive(listing);
    FilterKeepsAll(listing, all);

    ghost var noBmp := (f: string) => all(f) && f != "current.bmp";
    RemoveReaches(listing, files, all, "current.bmp", noBmp);
    if "current.bmp" in files {
      files := RemoveFirst(files, "current.bmp");
    }
    ghost var noTxt := (f: string) => noBmp(f) && f != "current.txt";
    RemoveReaches(listing, files, noBmp, "current.txt", noTxt);
    if "current.txt" in files {
      files := RemoveFirst(files, "current.txt");
    }
    ghost var noThumbs := (f: string) => noTxt(f) && f != "Thumbs.db";
    RemoveReaches(listing, files, noTxt, "Thumbs.db", noThumbs);
    if "Thumbs.db" in files {
      files := RemoveFirst(files, "Thumbs.db");
    }

    var notConfig := (f: string) => !IsConfigFile(f);
    ghost var noConfig := (f: string) => noThumbs(f) && notConfig(f);
    FilterReaches(listing, files, noThumbs, notConfig, noConfig);
    files := Filter(files, notConfig);
    FilterReaches(listing, files, noConfig, HasDot, Eligible);
    files := Filter(files, HasDot);
  }

  /** A guarded `files.remove(x)` takes the files reached by `keep` to those reached by `keep`
      and "is not x". */
  lemma RemoveReaches(listing: seq<string>, files: seq<string>, keep: string -> bool, x: string,
                      both: string -> bool)
    requires Reached(files, listing, keep)
    requires forall f :: both(f) == (keep(f) && f != x)
    ensures Reached(if x in files then RemoveFirst(files, x) else files, listing, both)
  {
    RemoveStep(files, x);
    SubsequenceTransitive(if x in files then RemoveFirst(files, x) else files, files, listing);
    if NoDuplicates(listing) {
      FilterKeepsDistinct(listing, keep);
      FilterCompose(listing, keep, f => f != x, both);
    }
  }

  /** A filtering comprehension by q takes the files reached by `keep` to those reached by
      `keep` and q. */
  lemma FilterReaches(listing: seq<string>, files: seq<string>, keep: string -> bool, q: string -> bool,
                      both: string -> bool)
    requires Reached(files, listing, keep)
    requires forall f :: both(f) == (keep(f) && q(f))
    ensures Reached(Filter(files, q), listing, both)
  {
    FilterIsSubsequence(files, q);
    SubsequenceTransitive(Filter(files, q), files, listing);
    if NoDuplicates(listing) {
      FilterCompose(listing, keep, q, both);
    }
  }

  /** What one guarded `files.remove(x)` does: the result is a subsequence, and on a listing
      without repeats it keeps exactly the names other than x. */
  lemma RemoveStep(s: seq<string>, x: string)
    ensures var t := if x in s then RemoveFirst(s, x) else s;
      && IsSubsequence(t, s)
      && (NoDuplicates(s) ==> t == Filter(s, f => f != x))
  {
    if x in s {
      RemoveFirstIsSubsequence(s, x);
      if NoDuplicates(s) {
        RemoveFirstOfDistinct(s, x);
      }
    } else {
      SubsequenceReflexive(s);
      FilterKeepsAll(s, f => f != x);
    }
  }

  lemma {:induction false} SubsequenceReflexive(s: seq<string>)
    ensures IsSubsequence(s, s)
    decreases |s|
  {
    if s != [] {
      SubsequenceReflexive(s[1..]);
    }
  }

  /** Deleting from a subsequence of c leaves a subsequence of c. */
  lemma {:induction false} SubsequenceTransitive(a: seq<string>, b: seq<string>, c: seq<string>)
    requires IsSubsequence(a, b) && IsSubsequence(b, c)
    ensures IsSubsequence(a, c)
    decreases |c|
  {
    if a != [] {
      if IsSubsequence(b, c[1..]) {
        SubsequenceTransitive(a, b, c[1..]);
      } else {
        assert b[0] == c[0] && IsSubsequence(b[1..], c[1..]);
        if a[0] == b[0] && IsSubsequence(a[1..], b[1..]) {
          SubsequenceTransitive(a[1..], b[1..], c[1..]);
        } else {
          SubsequenceTransitive(a, b[1..], c[1..]);
        }
      }
    }
  }

  lemma {:induction false} FilterIsSubsequence(s: seq<string>, keep: string -> bool)
    ensures IsSubsequence(Filter(s, keep), s)
    decreases |s|
  {
    if s != [] {
      FilterIsSubsequence(s[1..], keep);
      var rest := Filter(s[1..], keep);
      if keep(s[0]) {
        var t := [s[0]] + rest;
        assert Filter(s, keep) == t && t[0] == s[0] && t[1..] == rest;
      } else {
        assert Filter(s, keep) == rest;
      }
    }
  }

  lemma {:induction false} RemoveFirstIsSubsequence(s: seq<string>, x: string)
    requires x in s
    ensures IsSubsequence(RemoveFirst(s, x), s)
    decreases |s|
  {
    if s[0] == x {
      SubsequenceReflexive(s[1..]);
    } else {
      RemoveFirstIsSubsequence(s[1..], x);
      assert RemoveFirst(s, x)[1..] == RemoveFirst(s[1..], x);
    }
  }

  /** `remove` takes away exactly one copy of x and keeps every other name. */
  lemma {:induction false} RemoveFirstMultiset(s: seq<string>, x: string)
    requires x in s
    ensures multiset(RemoveFirst(s, x)) == multiset(s) - multiset{x}
    decreases |s|
  {
    assert s == [s[0]] + s[1..];
    if s[0] != x {
      RemoveFirstMultiset(s[1..], x);
    }
  }

  /** A name is kept exactly when it is in the list and passes the condition. */
  lemma {:induction false} FilterMembers(s: seq<string>, keep: string -> bool)
    ensures forall f :: f in Filter(s, keep) <==> f in s && keep(f)
    decreases |s|
  {
    if s != [] {
      FilterMembers(s[1..], keep);
      assert s == [s[0]] + s[1..];
    }
  }

  lemma {:induction false} FilterKeepsAll(s: seq<string>, keep: string -> bool)
    requires forall f :: f in s ==> keep(f)
    ensures Filter(s, keep) == s
    decreases |s|
  {
    if s != [] {
      FilterKeepsAll(s[1..], keep);
    }
  }

  lemma {:induction false} FilterKeepsDistinct(s: seq<string>, keep: string -> bool)
    requires NoDuplicates(s)
    ensures NoDuplicates(Filter(s, keep))
    decreases |s|
  {
    if s != [] {
      FilterKeepsDistinct(s[1..], keep);
      FilterMembers(s[1..], keep);
      assert s[0] !in s[1..];
    }
  }

  /** On a list without repeats, removing the first x removes every x. */
  lemma {:induction false} RemoveFirstOfDistinct(s: seq<string>, x: string)
    requires x in s && NoDuplicates(s)
    ensures RemoveFirst(s, x) == Filter(s, f => f != x)
    decreases |s|
  {
    if s[0] == x {
      assert x !in s[1..];
      FilterKeepsAll(s[1..], f => f != x);
    } else {
      RemoveFirstOfDistinct(s[1..], x);
    }
  }

  /** Two filters in a row are one filter by both conditions. */
  lemma {:induction false} FilterCompose(s: seq<string>, p: string -> bool, q: string -> bool, both: string -> bool)
    requires forall f :: both(f) == (p(f) && q(f))
    ensures Filter(Filter(s, p), q) == Filter(s, both)
    decreases |s|
  {
    if s != [] {
      FilterCompose(s[1..], p, q, both);
      var rest := Filter(s[1..], p);
      if p(s[0]) {
        var t := [s[0]] + rest;
        assert Filter(s, p) == t && t[0] == s[0] && t[1..] == rest;
      } else {
        assert Filter(s, p) == rest;
      }
    }
  }

  /** On a listing without repeats, none of the reserved names survives. */
  lemma NoReservedNameSurvives(listing: seq<string>, name: string)
    requires NoDuplicates(listing) && name in ReservedNames
    ensures name !in Filter(listing, Eligible)
  {
    FilterMembers(listing, Eligible);
  }
}
