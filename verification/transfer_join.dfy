/** What the command `cat dst.* >> dst; rm -f dst.*` of a join leaves
    (convoy/data.py:857-864). */
module TransferJoin {
  import opened Common
  import opened Strings
  import opened SplitNames
  import opened Packing
  import opened Transfer

  lemma {:induction false} CatAllPieces(remote: map<string, Bytes>, names: seq<string>, contents: seq<Bytes>)
    requires |names| == |contents|
    requires forall i :: 0 <= i < |names| ==> Holds(remote, names[i], contents[i])
    ensures CatAll(remote, names) == Flatten(contents)
  {
    if names != [] {
      assert Holds(remote, names[0], contents[0]);
      CatAllPieces(remote, names[1..], contents[1..]);
      FlattenFirst(contents);
    }
  }

  ghost predicate PiecesHeld(remote: map<string, Bytes>, d: string, contents: seq<Bytes>) {
    forall i :: 0 <= i < |contents| ==> Holds(remote, PieceName(d, i, PadWidth(|contents|)), contents[i])
  }

  lemma TailConcatenated(remote: map<string, Bytes>, d: string, contents: seq<Bytes>)
    requires |contents| > 0 && PiecesHeld(remote, d, contents)
    ensures CatAll(remote, PieceNames(d, |contents|)) == Flatten(contents[1..])
  {
    var names := PieceNames(d, |contents|);
    forall i | 0 <= i < |names| ensures Holds(remote, names[i], contents[1..][i]) {
      assert Holds(remote, PieceName(d, i + 1, PadWidth(|contents|)), contents[i + 1]);
    }
    CatAllPieces(remote, names, contents[1..]);
  }

  // ---- what lies between the pieces ------------------------------------

  /** The names of s outside p hold nothing. */
  ghost predicate EmptyOutside(remote: map<string, Bytes>, s: set<string>, p: set<string>) {
    forall x :: x in s && x !in p && x in remote ==> remote[x] == []
  }

  lemma LeastOfPart(s: set<string>, p: set<string>)
    requires s != {} && Least(s) in p
    ensures s * p != {} && Least(s * p) == Least(s)
  {
    assert Least(s) in s * p;
    LeastUnique(s * p, Least(s));
  }

  /** Concatenating more names in order adds bytes, and adds none exactly when
      the additional names hold none. */
  lemma {:induction false} CatOfPart(remote: map<string, Bytes>, s: set<string>, p: set<string>)
    ensures EmptyOutside(remote, s, p) ==> CatAll(remote, Sorted(s)) == CatAll(remote, Sorted(s * p))
    ensures !EmptyOutside(remote, s, p) ==> |CatAll(remote, Sorted(s))| > |CatAll(remote, Sorted(s * p))|
    decreases |s|
  {
    if s == {} {
      assert s * p == s;
    } else {
      var m := Least(s);
      var t := s - {m};
      CatOfPart(remote, t, p);
      assert forall x :: x in s <==> x == m || x in t;
      if m in p {
        LeastOfPart(s, p);
        assert s * p - {m} == t * p;
      } else {
        assert s * p == t * p;
      }
    }
  }

  // ---- the join --------------------------------------------------------

  lemma PiecesOfMatches(remote: map<string, Bytes>, d: string, contents: seq<Bytes>)
    requires |contents| > 0 && PiecesHeld(remote, d, contents)
    ensures Sorted(Matches(remote, d) * Elements(PieceNames(d, |contents|))) == PieceNames(d, |contents|)
  {
    var n := |contents|;
    var l := PieceNames(d, n);
    forall x | x in l ensures x in Matches(remote, d) {
      var i :| 0 <= i < |l| && l[i] == x;
      PieceNamesMatch(d, i + 1, PadWidth(n));
      assert Holds(remote, PieceName(d, i + 1, PadWidth(n)), contents[i + 1]);
    }
    assert Matches(remote, d) * Elements(l) == Elements(l);
    PieceNamesSorted(d, n);
    SortedUnique(Elements(l), l);
  }

  lemma PieceNamesListed(d: string, n: nat, x: string)
    requires n > 0
    ensures x in PieceNames(d, n) <==> IsPieceOf(d, n, x)
  {
    var l := PieceNames(d, n);
    if i :| 0 < i < n && x == PieceName(d, i, PadWidth(n)) {
      assert l[i - 1] == x;
    }
  }

  /** With all pieces in place, the join leaves the concatenation of the pieces
      exactly when every other file under its pattern is empty. Otherwise it
      leaves more than that. Whatever the pattern matched is gone. */
  lemma JoinIntactIff(remote: map<string, Bytes>, d: string, contents: seq<Bytes>)
    requires |contents| > 0 && PiecesHeld(remote, d, contents)
    ensures Holds(JoinFiles(remote, d), d, Flatten(contents)) <==>
            forall x :: x in Matches(remote, d) && !IsPieceOf(d, |contents|, x) ==> remote[x] == []
    ensures !Holds(JoinFiles(remote, d), d, Flatten(contents)) ==>
            |JoinFiles(remote, d)[d]| > |Flatten(contents)|
    ensures forall x :: x in JoinFiles(remote, d) ==> !GlobMatch(d, x)
  {
    var s, p := Matches(remote, d), Elements(PieceNames(d, |contents|));
    assert EmptyOutside(remote, s, p) <==>
           forall x :: x in s && !IsPieceOf(d, |contents|, x) ==> remote[x] == [] by {
      forall x ensures x in p <==> IsPieceOf(d, |contents|, x) {
        PieceNamesListed(d, |contents|, x);
      }
    }
    PiecesOfMatches(remote, d, contents);
    CatOfPart(remote, s, p);
    TailConcatenated(remote, d, contents);
    assert Holds(remote, PieceName(d, 0, PadWidth(|contents|)), contents[0]);
    FlattenFirst(contents);
  }

  /** A join, successful or not, touches only d and the names under its
      pattern, and creates no name other than d. */
  lemma JoinTouches(remote: map<string, Bytes>, d: string, code: int, remote': map<string, Bytes>)
    requires JoinEffect(remote, d, code, remote')
    ensures forall x :: x != d && !GlobMatch(d, x) ==> SameAt(remote, remote', x)
    ensures forall x :: x in remote' ==> x == d || x in remote
    ensures forall x :: x != d && x in remote' ==> SameAt(remote, remote', x)
    ensures code == 0 ==> forall x :: x in remote' ==> !GlobMatch(d, x)
  {
  }

  /** What a failed process may leave: a transfer anything under its name, a join anything
      under d and none of the files that its pattern matches. */
  lemma FailuresMayLeave(remote: map<string, Bytes>, x: Xfer, d: string, code: int, rest: Bytes)
    requires code != 0
    ensures CopyEffect(remote, x, code, remote[x.name := rest])
    ensures JoinEffect(remote, d, code, (remote - Matches(remote, d))[d := rest])
  {
  }
}
