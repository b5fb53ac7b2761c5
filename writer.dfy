/** The byte-slice writer the serializer writes through: a cursor over a
    mutable byte buffer whose remaining part shrinks from the front as data is
    written. */
module Writer {
  import opened Base

  /** `d` with its first `|p|` bytes replaced by `p`. */
  function Overwrite(d: seq<byte>, p: seq<byte>): (r: seq<byte>)
    requires |p| <= |d|
    ensures |r| == |d|
    ensures r[..|p|] == p
    ensures r[|p|..] == d[|p|..]
  {
    p + d[|p|..]
  }

  /** The writer borrows the whole buffer; `buf[pos..]` is the slice still to
      be written, so the bytes before `pos` are those already written. */
  class SliceWriter {
    const buf: array<byte>
    var pos: nat

    ghost predicate Valid()
      reads this
    {
      pos <= buf.Length
    }

    /** The remaining (unwritten) slice. */
    function Remaining(): seq<byte>
      reads this, buf
      requires Valid()
    {
      buf[pos..]
    }

    constructor (buf: array<byte>)
      ensures this.buf == buf && pos == 0 && Valid()
      ensures Remaining() == buf[..]
    {
      this.buf := buf;
      pos := 0;
    }

    /** Copies `data` into the front of the remaining slice and moves past it.
        The program assumes, and does not check, that `data` fits. */
    method Write(data: seq<byte>) returns (r: Result<nat>)
      requires Valid()
      requires |data| <= |Remaining()|
      modifies this`pos, buf
      ensures Valid()
      ensures r == Ok(|data|)
      ensures pos == old(pos) + |data|
      ensures buf[old(pos)..pos] == data
      ensures buf[..] == old(buf[..pos]) + data + old(buf[pos + |data|..])
      ensures Remaining() == old(Remaining())[|data|..]
    {
      var amt := |data|;
      var i := 0;
      while i < amt
        invariant 0 <= i <= amt
        invariant pos == old(pos) && Valid()
        invariant forall k :: 0 <= k < buf.Length ==>
                    buf[k] == if pos <= k < pos + i then data[k - pos] else old(buf[k])
      {
        buf[pos + i] := data[i];
        i := i + 1;
      }
      pos := pos + amt;
      r := Ok(amt);
    }

    /** Writes all of `data`; since `Write` always writes everything, this is
        one `Write`. */
    method WriteAll(data: seq<byte>) returns (r: Result<()>)
      requires Valid()
      requires |data| <= |Remaining()|
      modifies this`pos, buf
      ensures Valid()
      ensures r == Ok(())
      ensures pos == old(pos) + |data|
      ensures buf[..] == old(buf[..pos]) + data + old(buf[pos + |data|..])
      ensures Remaining() == old(Remaining())[|data|..]
    {
      var _ := Write(data);
      r := Ok(());
    }

    /** Nothing is buffered, so flushing changes nothing. */
    method Flush() returns (r: Result<()>)
      requires Valid()
      ensures r == Ok(())
    {
      r := Ok(());
    }
  }
}
