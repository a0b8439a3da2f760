/** opendir_safe: opening the directories of a validated name, one component at a time, in a buffer whose slashes
    become NULs on the way. */
module OpenDir {
  import opened Bytes
  import opened Utf8
  import opened Paths
  import opened FileSystem
  import opened Unpack

  /** The part of the name from index i on, and its components. */
  function Tail(s: seq<byte>, i: nat): seq<byte>
    requires CString(s) && i < |s|
  {
    s[i..|s| - 1]
  }

  /** Up to the next slash: the first component of the tail, and the rest. */
  lemma NextSegment(s: seq<byte>, i: nat, next: nat)
    requires CString(s) && i <= next < |s| && (forall m :: i <= m < next ==> s[m] != SLASH)
    ensures s[next] == SLASH ==>
              next + 1 < |s| && Paths.Split(Tail(s, i)) == [s[i..next]] + Paths.Split(Tail(s, next + 1))
    ensures s[next] == 0 ==> Paths.Split(Tail(s, i)) == [s[i..next]]
  {
    var c := s[i..next];
    if s[next] == SLASH {
      assert Tail(s, i) == c + [SLASH] + Tail(s, next + 1);
      SplitAtSlash(c, Tail(s, next + 1));
    } else if s[next] == 0 {
      assert next == |s| - 1;
      assert Tail(s, i) == c;
      SplitSingle(c);
    }
  }

  /** The test before the abort at line 175: the segment is "", "." or "..". */
  predicate LooksLikeTraversal(c: seq<byte>) {
    |c| <= 2 && c == [DOT, DOT][..|c|]
  }

  lemma NormalIsNoTraversal(c: seq<byte>)
    requires IsNormal(c)
    ensures !LooksLikeTraversal(c)
  {
    if |c| == 1 {
      assert [DOT, DOT][..1] == [DOT];
    } else if |c| == 2 {
      assert [DOT, DOT][..2] == [DOT, DOT];
    }
  }

  /** The buffer after k slashes have been overwritten. */
  predicate SlashesCut(now: seq<byte>, s: seq<byte>, upTo: nat) {
    |now| == |s| && forall m :: 0 <= m < |s| ==> now[m] == if m < upTo && s[m] == SLASH then 0 else s[m]
  }

  /** Every component but the last is opened, in order, and the buffer's last segment is the last component; the
      abort for ".", ".." and "" is never reached. */
  method OpendirSafe(fs: Tree, path: array<byte>) returns (errno: int, visited: seq<Name>, lastSegment: nat)
    requires CString(path[..]) && forall j :: 0 <= j < |Components(path[..])| ==> IsNormal(Components(path[..])[j])
    modifies path
    ensures errno == OpenParentErrno(fs, Components(old(path[..])))
    ensures errno == 0 ==>
              && lastSegment < path.Length
              && visited + [Tail(old(path[..]), lastSegment)] == Components(old(path[..]))
              && SlashesCut(path[..], old(path[..]), lastSegment)
              && forall m :: lastSegment <= m < path.Length ==> path[m] != SLASH
  {
    hide Paths.Split, OpenPrefixErrno, CString;
    ghost var s := path[..];
    ghost var cs := Components(s);
    NotEmptyBuffer(s);
    assert Tail(s, 0) == Content(s);
    var thisSegment := 0;
    visited := [];
    assert OpenPrefixErrno(fs, cs, 0) == 0 by {
      OpenNothing(fs, cs);
    }
    while true
      invariant 0 <= thisSegment < |s| && |visited| < |cs|
      invariant visited == cs[..|visited|] && Paths.Split(Tail(s, thisSegment)) == cs[|visited|..]
      invariant SlashesCut(path[..], s, thisSegment)
      invariant OpenPrefixErrno(fs, cs, |visited|) == 0
      decreases |s| - thisSegment
    {
      var next := thisSegment;
      while path[next] != 0 && path[next] != SLASH
        invariant thisSegment <= next < |s| && SlashesCut(path[..], s, thisSegment)
        invariant forall m :: thisSegment <= m < next ==> s[m] != SLASH
        decreases |s| - next
      {
        assert path[..][next] == s[next];
        InsideBuffer(s, next);
        next := next + 1;
      }
      assert path[..][next] == s[next];
      NextSegment(s, thisSegment, next);
      if path[next] == 0 {
        EndOfBuffer(s, next);
        assert cs[|visited|..] == [s[thisSegment..next]];
        assert cs == visited + cs[|visited|..];
        return 0, visited, thisSegment;
      }
      path[next] := 0;
      assert SlashesCut(path[..], s, next + 1);
      ghost var c := s[thisSegment..next];
      assert c == cs[|visited|..][0] == cs[|visited|];
      NormalIsNoTraversal(c);
      assert c == path[..][thisSegment..next] == path[thisSegment..next];
      assert !LooksLikeTraversal(path[thisSegment..next]);
      var segment := path[thisSegment..next];
      var e := OpenDirErrno(fs, visited, segment);
      OpenOneMore(fs, cs, |visited|);
      if e != 0 {
        OpenStops(fs, cs, |visited| + 1, |cs| - 1);
        return e, visited, thisSegment;
      }
      assert cs[|visited|..][1..] == cs[|visited| + 1..];
      visited := visited + [segment];
      thisSegment := next + 1;
    }
  }

  lemma NotEmptyBuffer(s: seq<byte>)
    requires CString(s)
    ensures |s| > 0
  {
  }

  lemma InsideBuffer(s: seq<byte>, i: nat)
    requires CString(s) && i < |s| && s[i] != 0
    ensures i + 1 < |s|
  {
  }

  lemma EndOfBuffer(s: seq<byte>, i: nat)
    requires CString(s) && i < |s| && s[i] == 0
    ensures i == |s| - 1
  {
  }

  lemma OpenNothing(fs: Tree, p: Path)
    ensures OpenPrefixErrno(fs, p, 0) == 0
  {
  }

  lemma OpenOneMore(fs: Tree, p: Path, k: nat)
    requires k < |p| && OpenPrefixErrno(fs, p, k) == 0
    ensures OpenPrefixErrno(fs, p, k + 1) == OpenDirErrno(fs, p[..k], p[k])
  {
  }

  /** Once an open has failed, nothing more is opened. */
  lemma {:induction false} OpenStops(fs: Tree, p: Path, k: nat, n: nat)
    requires k <= n <= |p| && OpenPrefixErrno(fs, p, k) != 0
    ensures OpenPrefixErrno(fs, p, n) == OpenPrefixErrno(fs, p, k)
    decreases n - k
  {
    if k < n {
      assert OpenPrefixErrno(fs, p, k + 1) == OpenPrefixErrno(fs, p, k);
      OpenStops(fs, p, k + 1, n);
    }
  }

  /** For every name the receiver accepts, the precondition above holds, and the directories opened are one fewer
      than validate_path counted. */
  lemma AcceptedNameOpens(name: seq<byte>, flags: CopyFlags)
    requires CString(name) && ValidateFileName(name, NameFlags(flags)) == 0
    ensures forall j :: 0 <= j < |Components(name)| ==> IsNormal(Components(name)[j])
    ensures |Components(name)| == ScanPath(name, 0, NameFlags(flags)) >= 1
    ensures Join(Components(name)) == Content(name)
  {
    hide ScanPath, Paths.Split;
    StrictNameComponents(name, NameFlags(flags));
    JoinSplit(Content(name));
  }
}
