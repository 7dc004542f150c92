/** The buffer behind an SFTP upload: out-of-order writes collected and saved on close. */
module SftpBuffer {
  import opened Common
  import opened FileWrites

  class WriteBuffer {
    var buf: array<byte>
    var maxOffset: nat
    ghost var writes: seq<Write>

    /** What closing now would save. */
    ghost function Contents(): Bytes
      reads this, buf
      requires maxOffset <= buf.Length
    {
      buf[..maxOffset]
    }

    ghost predicate Valid()
      reads this, buf
    {
      buf.Length == maxOffset && Contents() == Replay([], writes)
    }

    constructor ()
      ensures Valid() && fresh(buf) && writes == [] && Contents() == []
    {
      buf := new byte[0];
      maxOffset := 0;
      writes := [];
    }

    method WriteAt(p: Bytes, off: nat) returns (n: nat)
      requires Valid()
      modifies this, buf
      ensures Valid() && (buf == old(buf) || fresh(buf))
      ensures n == |p| && writes == old(writes) + [Write(off, p)]
      ensures Contents() == Overlay(old(Contents()), Write(off, p))
      ensures maxOffset == if old(maxOffset) < off + |p| then off + |p| else old(maxOffset)
    {
      var end := off + |p|;
      if end > maxOffset {
        maxOffset := end;
      }
      var before := buf[..];
      if buf.Length < end {
        buf := Grown(before, end);
      }
      Fill(p, off, before);
      assert buf[..maxOffset] == buf[..];
      ReplayAppend([], writes, Write(off, p));
      writes := writes + [Write(off, p)];
      n := |p|;
    }

    /** The last step of a write, once the buffer reaches its end. */
    method Fill(p: Bytes, off: nat, ghost before: Bytes)
      requires off + |p| <= buf.Length && |before| <= buf.Length
      requires buf.Length == if |before| < off + |p| then off + |p| else |before|
      requires forall i :: 0 <= i < buf.Length ==> buf[i] == if i < |before| then before[i] else 0
      modifies buf
      ensures buf[..] == Overlay(before, Write(off, p))
    {
      Copy(p, buf, off);
      assert buf[..] == Overlay(before, Write(off, p));
    }

    /** What is handed to the file operator. */
    method Close() returns (saved: Bytes)
      requires Valid()
      ensures saved == Replay([], writes)
      ensures IsLength(0, writes, |saved|)
      ensures forall i: nat, k: nat :: i < |saved| && LastWriter(writes, i, k) ==> saved[i] == writes[k].At(i)
      ensures forall i :: 0 <= i < |saved| && (forall k :: 0 <= k < |writes| ==> !writes[k].Covers(i)) ==> saved[i] == 0
    {
      saved := buf[..maxOffset];
      ReplayIsLastWriterWins([], writes);
    }
  }

  /** A new, longer buffer that starts with the old bytes and is zero after them. */
  method Grown(held: Bytes, size: nat) returns (grown: array<byte>)
    requires |held| <= size
    ensures fresh(grown) && grown.Length == size
    ensures forall i :: 0 <= i < size ==> grown[i] == if i < |held| then held[i] else 0
  {
    grown := new byte[size](_ => 0);
    Copy(held, grown, 0);
  }

  method Copy(src: Bytes, dst: array<byte>, at: nat)
    requires at + |src| <= dst.Length
    modifies dst
    ensures forall i :: 0 <= i < dst.Length ==>
              dst[i] == if at <= i < at + |src| then src[i - at] else old(dst[i])
  {
    for k := 0 to |src|
      invariant forall i :: 0 <= i < dst.Length ==>
                  dst[i] == if at <= i < at + k then src[i - at] else old(dst[i])
    {
      dst[at + k] := src[k];
    }
  }
}
