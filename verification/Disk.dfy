/** A file as bytes, written by seek-and-write steps that may stop after any byte. */
module Disk {
  import opened LittleEndian

  datatype Write = Write(at: nat, data: seq<byte>)

  /** The region starting at `at` holds exactly `data`. */
  ghost predicate Holds(disk: seq<byte>, at: nat, data: seq<byte>) {
    at + |data| <= |disk| && disk[at..at + |data|] == data
  }

  ghost predicate Disjoint(v: Write, w: Write) {
    v.at + |v.data| <= w.at || w.at + |w.data| <= v.at
  }

  /** One seek and write. Seeking past the end fills the gap with zeros; writing nothing leaves
      the file as it is. */
  function WriteAt(disk: seq<byte>, at: nat, data: seq<byte>): (d: seq<byte>)
    ensures |disk| <= |d|
  {
    if data == [] then disk
    else
      var padded := if |disk| < at then disk + seq(at - |disk|, _ => 0) else disk;
      padded[..at] + data + if at + |data| < |padded| then padded[at + |data|..] else []
  }

  /** The writes in order, stopped after n bytes in all. */
  function WritePrefix(disk: seq<byte>, ws: seq<Write>, n: nat): seq<byte>
    decreases ws
  {
    if ws == [] then disk
    else if n <= |ws[0].data| then WriteAt(disk, ws[0].at, ws[0].data[..n])
    else WritePrefix(WriteAt(disk, ws[0].at, ws[0].data), ws[1..], n - |ws[0].data|)
  }

  function Size(ws: seq<Write>): nat {
    if ws == [] then 0 else |ws[0].data| + Size(ws[1..])
  }

  /** Writing elsewhere leaves a region as it was, even when the file grows. */
  lemma WriteAtFrame(disk: seq<byte>, w: Write, r: Write)
    requires Disjoint(w, r) && Holds(disk, r.at, r.data)
    ensures Holds(WriteAt(disk, w.at, w.data), r.at, r.data)
  {
    var d := WriteAt(disk, w.at, w.data);
    forall i | r.at <= i < r.at + |r.data|
      ensures d[i] == disk[i]
    {
    }
    assert d[r.at..r.at + |r.data|] == disk[r.at..r.at + |r.data|];
  }

  lemma WriteAtHolds(disk: seq<byte>, w: Write)
    requires w.data != []
    ensures Holds(WriteAt(disk, w.at, w.data), w.at, w.data)
  {
    var d := WriteAt(disk, w.at, w.data);
    assert d[w.at..w.at + |w.data|] == w.data;
  }

  lemma {:induction false} WritePrefixFrame(disk: seq<byte>, ws: seq<Write>, n: nat, r: Write)
    requires forall w :: w in ws ==> Disjoint(w, r)
    requires Holds(disk, r.at, r.data)
    ensures Holds(WritePrefix(disk, ws, n), r.at, r.data)
    decreases ws
  {
    if ws == [] {
    } else {
      assert Disjoint(ws[0], r);
      if n <= |ws[0].data| {
        WriteAtFrame(disk, Write(ws[0].at, ws[0].data[..n]), r);
      } else {
        WriteAtFrame(disk, ws[0], r);
        WritePrefixFrame(WriteAt(disk, ws[0].at, ws[0].data), ws[1..], n - |ws[0].data|, r);
      }
    }
  }

  ghost predicate PairwiseDisjoint(ws: seq<Write>) {
    forall i, j :: 0 <= i < j < |ws| ==> Disjoint(ws[i], ws[j])
  }

  /** All bytes of disjoint writes written: every region holds its data. */
  lemma {:induction false} WriteAllHolds(disk: seq<byte>, ws: seq<Write>, n: nat, w: Write)
    requires PairwiseDisjoint(ws) && Size(ws) <= n
    requires forall v :: v in ws ==> v.data != []
    requires w in ws
    ensures Holds(WritePrefix(disk, ws, n), w.at, w.data)
    decreases ws
  {
    var first, rest := ws[0], ws[1..];
    var disk1 := WriteAt(disk, first.at, first.data);
    assert first in ws;
    WriteAtHolds(disk, first);
    assert first.data[..|first.data|] == first.data;
    if n == |first.data| {
      SizeAtLeast(rest);
      assert w == first;
    } else if w in rest {
      WriteAllHolds(disk1, rest, n - |first.data|, w);
    } else {
      assert w == first;
      forall v | v in rest
        ensures Disjoint(v, first)
      {
      }
      WritePrefixFrame(disk1, rest, n - |first.data|, first);
    }
  }

  lemma {:induction false} SizeAtLeast(ws: seq<Write>)
    requires forall v :: v in ws ==> v.data != []
    ensures ws != [] ==> Size(ws) > 0
  {
    if ws != [] {
      assert ws[0] in ws;
    }
  }
}
