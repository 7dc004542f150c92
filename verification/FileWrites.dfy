/** Positioned writes to a file: what a sequence of them leaves, and when their order is immaterial. */
module FileWrites {
  import opened Common

  datatype Write = Write(offset: nat, data: Bytes) {
    function End(): nat {
      offset + |data|
    }

    predicate Covers(i: nat) {
      offset <= i < End()
    }

    function At(i: nat): byte
      requires Covers(i)
    {
      data[i - offset]
    }
  }

  /** Put the data at its offset; the file grows as needed and gaps are zero. */
  function Overlay(s: Bytes, w: Write): (r: Bytes)
    ensures |r| == if |s| < w.End() then w.End() else |s|
    ensures forall i :: 0 <= i < |r| ==>
              r[i] == if w.Covers(i) then w.At(i) else if i < |s| then s[i] else 0
  {
    seq(if |s| < w.End() then w.End() else |s|, i requires 0 <= i =>
      if w.Covers(i) then w.At(i) else if i < |s| then s[i] else 0)
  }

  function Replay(s: Bytes, ws: seq<Write>): Bytes {
    if ws == [] then s else Overlay(Replay(s, ws[..|ws| - 1]), ws[|ws| - 1])
  }

  lemma ReplayAppend(s: Bytes, ws: seq<Write>, w: Write)
    ensures Replay(s, ws + [w]) == Overlay(Replay(s, ws), w)
  {
    assert (ws + [w])[..|ws|] == ws;
  }

  /** Write `k` is the last one to cover position `i`. */
  ghost predicate LastWriter(ws: seq<Write>, i: nat, k: nat) {
    k < |ws| && ws[k].Covers(i) && forall j :: k < j < |ws| ==> !ws[j].Covers(i)
  }

  /** `n` is the length of a file of `m` bytes after the writes. */
  ghost predicate IsLength(m: nat, ws: seq<Write>, n: nat) {
    && m <= n
    && (forall k :: 0 <= k < |ws| ==> ws[k].End() <= n)
    && (n == m || exists k :: 0 <= k < |ws| && ws[k].End() == n)
  }

  /** The last writer wins, untouched bytes stay, gaps are zero, and the length is the furthest end. */
  lemma {:induction false} ReplayIsLastWriterWins(s: Bytes, ws: seq<Write>)
    ensures IsLength(|s|, ws, |Replay(s, ws)|)
    ensures forall i: nat, k: nat :: i < |Replay(s, ws)| && LastWriter(ws, i, k) ==> Replay(s, ws)[i] == ws[k].At(i)
    ensures forall i :: 0 <= i < |Replay(s, ws)| && (forall k :: 0 <= k < |ws| ==> !ws[k].Covers(i)) ==>
              Replay(s, ws)[i] == if i < |s| then s[i] else 0
  {
    if ws != [] {
      var n := |ws| - 1;
      var front, last := ws[..n], ws[n];
      ReplayIsLastWriterWins(s, front);
      assert Replay(s, ws) == Overlay(Replay(s, front), last);
      var before := Replay(s, front);
      assert forall k :: 0 <= k < n ==> front[k] == ws[k];
      if |before| != |s| && |Replay(s, ws)| == |before| {
        var k :| 0 <= k < n && front[k].End() == |before|;
        assert ws[k].End() == |Replay(s, ws)|;
      }
      forall i: nat, k: nat | i < |Replay(s, ws)| && LastWriter(ws, i, k)
        ensures Replay(s, ws)[i] == ws[k].At(i)
      {
        if k < n {
          assert LastWriter(front, i, k) && front[k].End() <= |before|;
        }
      }
      forall i | 0 <= i < |Replay(s, ws)| && (forall k :: 0 <= k < |ws| ==> !ws[k].Covers(i))
        ensures Replay(s, ws)[i] == if i < |s| then s[i] else 0
      {
        assert forall k :: 0 <= k < n ==> !front[k].Covers(i);
      }
    }
  }

  lemma {:induction false} SomeLastWriter(ws: seq<Write>, i: nat, k: nat) returns (last: nat)
    requires k < |ws| && ws[k].Covers(i)
    ensures LastWriter(ws, i, last)
    decreases |ws| - k
  {
    if j :| k < j < |ws| && ws[j].Covers(i) {
      last := SomeLastWriter(ws, i, j);
    } else {
      last := k;
    }
  }

  /** Writes that meet at a position put the same byte there. */
  ghost predicate Compatible(ws: seq<Write>) {
    forall v, w, i :: v in ws && w in ws && v.Covers(i) && w.Covers(i) ==> v.At(i) == w.At(i)
  }

  ghost predicate Disjoint(ws: seq<Write>) {
    forall j, k, i :: 0 <= j < k < |ws| && ws[j].Covers(i) ==> !ws[k].Covers(i)
  }

  /** With compatible writes every covering write, not just the last, tells the byte. */
  lemma CompatibleContent(s: Bytes, ws: seq<Write>, w: Write, i: nat)
    requires Compatible(ws) && w in ws && w.Covers(i)
    ensures i < |Replay(s, ws)| && Replay(s, ws)[i] == w.At(i)
  {
    ReplayIsLastWriterWins(s, ws);
    var k :| 0 <= k < |ws| && ws[k] == w;
    var last := SomeLastWriter(ws, i, k);
  }

  /** Compatible writes leave the same file in whatever order and however often they are made. */
  lemma OrderIsImmaterial(s: Bytes, a: seq<Write>, b: seq<Write>)
    requires Compatible(a) && (forall w :: w in a <==> w in b)
    ensures Replay(s, a) == Replay(s, b)
  {
    assert Compatible(b);
    var x, y := Replay(s, a), Replay(s, b);
    SameLength(s, a, b);
    forall i | 0 <= i < |x| && i < |y|
      ensures x[i] == y[i]
    {
      if k :| 0 <= k < |a| && a[k].Covers(i) {
        assert a[k] in b;
        CompatibleContent(s, a, a[k], i);
        CompatibleContent(s, b, a[k], i);
      } else {
        assert forall k :: 0 <= k < |b| ==> b[k] in a;
        ReplayIsLastWriterWins(s, a);
        ReplayIsLastWriterWins(s, b);
      }
    }
  }

  lemma SameLength(s: Bytes, a: seq<Write>, b: seq<Write>)
    requires forall w :: w in a <==> w in b
    ensures |Replay(s, a)| == |Replay(s, b)|
  {
    ReplayIsLastWriterWins(s, a);
    ReplayIsLastWriterWins(s, b);
    assert forall k :: 0 <= k < |a| ==> a[k] in b;
    assert forall k :: 0 <= k < |b| ==> b[k] in a;
  }

  /** In particular disjoint writes may be permuted. */
  lemma {:induction false} DisjointWritesCommute(s: Bytes, a: seq<Write>, b: seq<Write>)
    requires Disjoint(a) && multiset(a) == multiset(b)
    ensures Replay(s, a) == Replay(s, b)
  {
    forall w ensures w in a <==> w in b {
      assert w in multiset(a) <==> w in multiset(b);
    }
    OrderIsImmaterial(s, a, b);
  }
}
