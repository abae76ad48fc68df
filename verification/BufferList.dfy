/** The chunked byte queue of exec-stream (3rdparty/exec-stream/exec-stream.cpp, buffer_list_t):
    the queues of the pipe protocol, with the offset into the first chunk and the running size. */
module BufferList {
  import opened PipeProtocol

  /** Sizes are 64 bits wide: one below zero wraps around. */
  const SIZE_RANGE: nat := 0x1_0000_0000_0000_0000

  const CR: byte := 13
  const LF: byte := 10

  function Kept(b: byte): seq<byte> { if b == CR then [] else [b] }

  function Stored(b: byte): seq<byte> { if b == LF then [CR, LF] else [b] }

  /** What `get_translate_crlf` gives: all but the carriage returns. */
  function Strip(bytes: seq<byte>): seq<byte> {
    if bytes == [] then [] else Kept(bytes[0]) + Strip(bytes[1..])
  }

  /** What `put_translate_crlf` stores: a carriage return before each line feed. */
  function Expand(bytes: seq<byte>): seq<byte> {
    if bytes == [] then [] else Stored(bytes[0]) + Expand(bytes[1..])
  }

  function CountLf(bytes: seq<byte>): nat {
    if bytes == [] then 0 else (if bytes[0] == LF then 1 else 0) + CountLf(bytes[1..])
  }

  lemma {:induction false} ConcatSplits(a: seq<seq<byte>>, b: seq<seq<byte>>)
    ensures Concat(a + b) == Concat(a) + Concat(b)
  {
    if a == [] {
      assert a + b == b;
    } else {
      ConcatSplits(a[1..], b);
      assert (a + b)[1..] == a[1..] + b;
      assert Concat(a + b) == a[0] + (Concat(a[1..]) + Concat(b));
    }
  }

  lemma {:induction false} StripSplits(a: seq<byte>, b: seq<byte>)
    ensures Strip(a + b) == Strip(a) + Strip(b)
  {
    hide Kept;
    if a == [] {
      assert a + b == b;
    } else {
      StripSplits(a[1..], b);
      assert (a + b)[1..] == a[1..] + b;
      assert Kept(a[0]) + (Strip(a[1..]) + Strip(b)) == Kept(a[0]) + Strip(a[1..]) + Strip(b);
    }
  }

  lemma {:induction false} ExpandSplits(a: seq<byte>, b: seq<byte>)
    ensures Expand(a + b) == Expand(a) + Expand(b)
  {
    hide Stored;
    if a == [] {
      assert a + b == b;
    } else {
      ExpandSplits(a[1..], b);
      assert (a + b)[1..] == a[1..] + b;
      assert Stored(a[0]) + (Expand(a[1..]) + Expand(b)) == Stored(a[0]) + Expand(a[1..]) + Expand(b);
    }
  }

  lemma {:induction false} CountLfSplits(a: seq<byte>, b: seq<byte>)
    ensures CountLf(a + b) == CountLf(a) + CountLf(b)
  {
    if a == [] {
      assert a + b == b;
    } else {
      CountLfSplits(a[1..], b);
      assert (a + b)[1..] == a[1..] + b;
    }
  }

  lemma {:induction false} ExpandedLength(bytes: seq<byte>)
    ensures |Expand(bytes)| == |bytes| + CountLf(bytes)
  {
    if bytes != [] {
      ExpandedLength(bytes[1..]);
    }
  }

  /** Reading back a translated text gives the text without its carriage returns. */
  lemma {:induction false} TranslationRoundTrip(bytes: seq<byte>)
    ensures Strip(Expand(bytes)) == Strip(bytes)
  {
    if bytes != [] {
      TranslationRoundTrip(bytes[1..]);
      StripSplits(Stored(bytes[0]), Expand(bytes[1..]));
      assert [CR, LF][1..] == [LF] && [bytes[0]][1..] == [] && [LF][1..] == [];
    }
  }

  predicate ReturnsBeforeFeeds(bytes: seq<byte>) {
    forall i :: 0 <= i < |bytes| && bytes[i] == 10 ==> i > 0 && bytes[i - 1] == 13
  }

  /** Every line feed stored comes right after a carriage return. */
  lemma {:induction false} LineFeedsFollowReturns(bytes: seq<byte>)
    ensures ReturnsBeforeFeeds(Expand(bytes))
  {
    if bytes != [] {
      LineFeedsFollowReturns(bytes[1..]);
      FeedsJoin(Stored(bytes[0]), Expand(bytes[1..]));
    }
  }

  lemma FeedsJoin(a: seq<byte>, b: seq<byte>)
    requires ReturnsBeforeFeeds(a) && ReturnsBeforeFeeds(b)
    ensures ReturnsBeforeFeeds(a + b)
  {
    forall i | 0 <= i < |a + b| && (a + b)[i] == 10 ensures i > 0 && (a + b)[i - 1] == 13 {
      if i >= |a| {
        assert b[i - |a|] == 10;
      }
    }
  }

  /** A text with one carriage return taken out before each line feed that has one. */
  function Collapse(bytes: seq<byte>): seq<byte>
    decreases |bytes|
  {
    if |bytes| < 2 then bytes
    else if bytes[0] == 13 && bytes[1] == 10 then [10] + Collapse(bytes[2..])
    else [bytes[0]] + Collapse(bytes[1..])
  }

  /** And otherwise the text is stored as it is: without those carriage returns it is the text, even one
      that had carriage returns before its line feeds. */
  lemma {:induction false} ExpandAddsOnlyReturns(bytes: seq<byte>)
    ensures Collapse(Expand(bytes)) == bytes
  {
    if bytes != [] {
      ExpandAddsOnlyReturns(bytes[1..]);
      var rest := Expand(bytes[1..]);
      if bytes[0] == 10 {
        assert ([13, 10] + rest)[2..] == rest;
      } else {
        LineFeedsFollowReturns(bytes[1..]);
        assert ([bytes[0]] + rest)[1..] == rest;
        assert rest != [] ==> rest[0] != 10;
        assert rest == [] ==> bytes[1..] == [];
      }
    }
  }

  /** What is read of a text, byte by byte: everything but the carriage returns. */
  lemma StripDropsReturns(bytes: seq<byte>, b: byte)
    ensures Strip(bytes + [b]) == Strip(bytes) + if b == 13 then [] else [b]
    ensures Strip([]) == []
  {
    StripSplits(bytes, [b]);
    assert [b][1..] == [];
  }

  lemma {:induction false} StripShortens(bytes: seq<byte>)
    ensures |Strip(bytes)| <= |bytes|
  {
    if bytes != [] {
      StripShortens(bytes[1..]);
    }
  }

  lemma {:induction false} StripKeepsText(bytes: seq<byte>)
    ensures Strip(bytes) == bytes <==> CR !in bytes
  {
    if bytes != [] {
      StripShortens(bytes[1..]);
      StripKeepsText(bytes[1..]);
      assert bytes == [bytes[0]] + bytes[1..];
    }
  }

  lemma NotEmpty(buffers: seq<seq<byte>>)
    ensures Concat(buffers) != [] ==> buffers != []
  {
  }

  /** The next bytes of the queue are those of its first chunk. */
  lemma Front(buffers: seq<seq<byte>>, offset: nat, n: nat)
    requires buffers != [] && offset + n <= |buffers[0]|
    ensures offset + n <= |Concat(buffers)|
    ensures Concat(buffers)[offset..] == buffers[0][offset..offset + n] + Concat(buffers)[offset + n..]
  {
  }

  lemma FrontByte(buffers: seq<seq<byte>>, offset: nat)
    requires buffers != [] && offset < |buffers[0]|
    ensures offset < |Concat(buffers)|
    ensures Concat(buffers)[offset..] == [buffers[0][offset]] + Concat(buffers)[offset + 1..]
  {
  }

  /** `out` was put at the start of an array that held `before`, and nothing else was touched. */
  predicate Wrote(now: seq<byte>, out: seq<byte>, before: seq<byte>) {
    |out| <= |before| && now == out + before[|out|..]
  }

  lemma WroteNothing(now: seq<byte>)
    ensures Wrote(now, [], now)
  {
  }

  lemma TakeMore(all: seq<byte>, at: nat, n: nat)
    requires at <= |all| && n <= |all[at..]|
    ensures at + n <= |all| && all[at..][n..] == all[at + n..]
    ensures all[..at] + all[at..][..n] == all[..at + n]
  {
  }

  /** Copies `src` into `dst` after the bytes already put `out` over what was there before. */
  method CopyBytes(dst: array<byte>, at: nat, src: seq<byte>, ghost out: seq<byte>, ghost before: seq<byte>)
    requires at == |out| && at + |src| <= dst.Length == |before| && Wrote(dst[..], out, before)
    modifies dst
    ensures Wrote(dst[..], out + src, before)
  {
    forall i | 0 <= i < |src| {
      dst[at + i] := src[i];
    }
  }

  /** The first chunk is also what follows the bytes of it that were read. */
  ghost predicate StartsAgain(buffers: seq<seq<byte>>, offset: nat)
    requires buffers != []
  {
    offset <= |Concat(buffers[1..])| && buffers[0] <= Concat(buffers)[offset..]
  }

  lemma DetachedBytes(buffers: seq<seq<byte>>, offset: nat)
    requires buffers != [] && offset <= |buffers[0]|
    ensures Concat(buffers) == buffers[0] + Concat(buffers[1..])
    ensures var (rest, left) := (Concat(buffers[1..]), Concat(buffers)[offset..]);
            offset == 0 || StartsAgain(buffers, offset) <==>
              buffers[0] + (if offset <= |rest| then rest[offset..] else []) == left
  {
    var c, rest, left := buffers[0], Concat(buffers[1..]), Concat(buffers)[offset..];
    if StartsAgain(buffers, offset) {
      assert left == left[..|c|] + left[|c|..];
      assert left[|c|..] == rest[offset..];
    }
    if offset > 0 && c + (if offset <= |rest| then rest[offset..] else []) == left {
      assert c <= left;
    }
  }

  class BufferList {
    var buffers: seq<seq<byte>>
    var readOffset: nat
    var totalSize: nat

    ghost predicate Valid()
      reads this
    {
      && (if buffers == [] then readOffset == 0 else readOffset < |buffers[0]| || readOffset == 0)
      && totalSize == |Contents()|
    }

    /** The bytes still to be read. */
    ghost function Contents(): seq<byte>
      reads this
    {
      if readOffset <= |Concat(buffers)| then Concat(buffers)[readOffset..] else []
    }

    constructor ()
      ensures Valid() && Contents() == [] && buffers == [] && readOffset == 0
    {
      buffers := [];
      readOffset := 0;
      totalSize := 0;
    }

    /** Leaves the first chunk when it has been read to its end. */
    method PopIfRead()
      requires buffers != [] && readOffset <= |buffers[0]| && totalSize == |Contents()|
      modifies this
      ensures Valid() && Contents() == old(Contents()) && totalSize == old(totalSize)
      ensures |buffers| <= old(|buffers|)
      ensures old(readOffset == |buffers[0]|) ==> |buffers| < old(|buffers|)
      ensures old(readOffset != |buffers[0]|) ==> buffers == old(buffers) && readOffset == old(readOffset)
    {
      if readOffset == |buffers[0]| {
        buffers := buffers[1..];
        readOffset := 0;
      }
    }

    /** Copies the next `portion` bytes of the first chunk. */
    method CopyPortion(dst: array<byte>, at: nat, portion: nat, ghost out: seq<byte>, ghost before: seq<byte>)
      requires Valid() && buffers != [] && readOffset + portion <= |buffers[0]|
      requires at == |out| && at + portion <= dst.Length == |before| && Wrote(dst[..], out, before)
      modifies this, dst
      ensures Valid() && portion <= |old(Contents())| && Contents() == old(Contents())[portion..]
      ensures Wrote(dst[..], out + old(Contents())[..portion], before)
      ensures |buffers| <= old(|buffers|)
      ensures old(readOffset) + portion == |old(buffers)[0]| ==> |buffers| < old(|buffers|)
    {
      hide Concat, Wrote;
      Front(buffers, readOffset, portion);
      CopyBytes(dst, at, buffers[0][readOffset..readOffset + portion], out, before);
      totalSize := totalSize - portion;
      readOffset := readOffset + portion;
      PopIfRead();
    }

    /** Copies out as many bytes as asked for and there are. */
    method Get(dst: array<byte>, size: nat) returns (written: nat)
      requires Valid() && size <= dst.Length
      modifies this, dst
      ensures Valid()
      ensures written == if size <= |old(Contents())| then size else |old(Contents())|
      ensures Wrote(dst[..], old(Contents())[..written], old(dst[..]))
      ensures Contents() == old(Contents())[written..]
    {
      hide Concat, Wrote;
      written := 0;
      var left := size;
      WroteNothing(dst[..]);
      ghost var all := Contents();
      while left > 0 && totalSize > 0
        invariant Valid() && 0 <= left && written + left == size
        invariant written <= |all| && Contents() == all[written..]
        invariant Wrote(dst[..], all[..written], old(dst[..]))
        decreases left, |buffers|
      {
        NotEmpty(buffers);
        var portion := if left <= |buffers[0]| - readOffset then left else |buffers[0]| - readOffset;
        CopyPortion(dst, written, portion, all[..written], old(dst[..]));
        TakeMore(all, written, portion);
        left := left - portion;
        written := written + portion;
      }
    }

    /** Appends a chunk. */
    method Put(src: seq<byte>)
      requires Valid()
      modifies this
      ensures Valid() && Contents() == old(Contents()) + src
      ensures buffers == old(buffers) + [src] && readOffset == old(readOffset)
    {
      ConcatSplits(buffers, [src]);
      assert Concat([src]) == src;
      buffers := buffers + [src];
      totalSize := totalSize + |src|;
    }

    /** Takes the first chunk whole and leaves the offset, which then counts in the next chunk. No byte
        is lost or given again exactly when nothing of the chunk was read, or when the chunk happens to
        be what was to be read next. */
    method Detach() returns (buffer: seq<byte>)
      requires Valid() && buffers != []
      modifies this
      ensures buffer == old(buffers)[0] && buffers == old(buffers)[1..] && readOffset == old(readOffset)
      ensures Valid() <==> old(readOffset == 0 || (|buffers| > 1 && readOffset < |buffers[1]|))
      ensures buffer + Contents() == old(Contents()) <==> old(readOffset == 0 || StartsAgain(buffers, readOffset))
    {
      DetachedBytes(buffers, readOffset);
      hide StartsAgain;
      buffer := buffers[0];
      buffers := buffers[1..];
      totalSize := if |buffer| <= totalSize then totalSize - |buffer| else (totalSize - |buffer|) % SIZE_RANGE;
    }

    predicate Empty()
      requires Valid()
      reads this
      ensures Empty() <==> Contents() == []
    {
      totalSize == 0
    }

    predicate IsFull(limit: nat)
      requires Valid()
      reads this
      ensures IsFull(limit) <==> Full(|Contents()|, limit)
    {
      limit != 0 && totalSize >= limit
    }

    method Clear()
      modifies this
      ensures Valid() && Contents() == [] && buffers == []
    {
      buffers := [];
      readOffset := 0;
      totalSize := 0;
    }

    /** Copies what is not a carriage return out of the first chunk. */
    method CopyFirst(dst: array<byte>, size: nat, start: nat, ghost sent: seq<byte>, ghost before: seq<byte>)
      returns (written: nat, ghost out: seq<byte>)
      requires buffers != [] && readOffset <= |buffers[0]| && totalSize == |Contents()| && start <= size <= dst.Length
      requires |sent| == start && |before| == dst.Length && Wrote(dst[..], sent, before)
      modifies `readOffset, `totalSize, dst
      ensures buffers == old(buffers) && old(readOffset) <= readOffset <= |buffers[0]|
      ensures totalSize == |Contents()| == old(totalSize) + old(readOffset) - readOffset
      ensures written <= size && (written == size || readOffset == |buffers[0]|)
      ensures |out| == written && Joins(out, Contents(), sent + Strip(old(Contents())))
      ensures Wrote(dst[..], out, before)
    {
      hide Concat, Strip, Kept, Wrote, Joins;
      written, out := start, sent;
      ghost var all := sent + Strip(Contents());
      JoinsStart(sent, Contents());
      while written != size && readOffset != |buffers[0]|
        invariant old(readOffset) <= readOffset <= |buffers[0]| && written <= size
        invariant totalSize == |Contents()| == old(totalSize) + old(readOffset) - readOffset
        invariant |out| == written && Joins(out, Contents(), all)
        invariant Wrote(dst[..], out, before)
        decreases |buffers[0]| - readOffset
      {
        var c := buffers[0][readOffset];
        FrontByte(buffers, readOffset);
        JoinsStep(out, c, Contents(), Concat(buffers)[readOffset + 1..], all);
        KeptByte(out, c);
        if c != CR {
          CopyBytes(dst, written, [c], out, before);
          written := written + 1;
        }
        out := out + Kept(c);
        totalSize := totalSize - 1;
        readOffset := readOffset + 1;
      }
    }

    /** Copies out what is not a carriage return, until enough bytes were copied or none are left. */
    method GetTranslateCrlf(dst: array<byte>, size: nat) returns (written: nat)
      requires Valid() && size <= dst.Length
      modifies this, dst
      ensures Valid() && (written < size ==> Contents() == [])
      ensures written == if size <= |Strip(old(Contents()))| then size else |Strip(old(Contents()))|
      ensures Wrote(dst[..], Strip(old(Contents()))[..written], old(dst[..]))
      ensures Strip(Contents()) == Strip(old(Contents()))[written..]
    {
      hide Concat, Wrote;
      written := 0;
      WroteNothing(dst[..]);
      ghost var out: seq<byte> := [];
      while written != size && totalSize > 0
        invariant Valid() && written <= size
        invariant |out| == written && Joins(out, Contents(), Strip(old(Contents())))
        invariant Wrote(dst[..], out, old(dst[..]))
        decreases totalSize, |buffers|
      {
        NotEmpty(buffers);
        written, out := CopyFirst(dst, size, written, out, old(dst[..]));
        PopIfRead();
      }
    }

    /** Appends a chunk with a carriage return before each line feed. */
    method PutTranslateCrlf(src: seq<byte>)
      requires Valid()
      modifies this
      ensures Valid() && Contents() == old(Contents()) + Expand(src)
      ensures buffers == old(buffers) + [Expand(src)] && readOffset == old(readOffset)
    {
      var data := Translate(src);
      Put(data[..]);
    }
  }

  lemma KeptByte(out: seq<byte>, c: byte)
    ensures out + Kept(c) == if c == CR then out else out + [c]
  {
  }

  /** `out` and what is still to come of `rest` make up `all`. */
  predicate Joins(out: seq<byte>, rest: seq<byte>, all: seq<byte>) {
    out + Strip(rest) == all
  }

  lemma JoinsStart(out: seq<byte>, rest: seq<byte>)
    ensures Joins(out, rest, out + Strip(rest))
  {
  }

  lemma JoinsStep(out: seq<byte>, c: byte, rest: seq<byte>, tail: seq<byte>, all: seq<byte>)
    requires rest == [c] + tail && Joins(out, rest, all)
    ensures Joins(out + Kept(c), tail, all)
  {
    assert rest[1..] == tail;
    assert out + Kept(c) + Strip(tail) == out + (Kept(c) + Strip(tail));
  }

  /** Counts the line feeds, then copies into a buffer of the right size. */
  method Translate(src: seq<byte>) returns (data: array<byte>)
    ensures fresh(data) && data[..] == Expand(src)
  {
    hide Expand, CountLf;
    ExpandEnds(src);
    var lfCount := 0;
    for p := 0 to |src|
      invariant lfCount == CountLf(src[..p])
    {
      CountStep(src, p);
      lfCount := if src[p] == LF then lfCount + 1 else lfCount;
    }
    ExpandedLength(src);
    data := new byte[|src| + lfCount];
    var dst := 0;
    for p := 0 to |src|
      invariant dst == |Expand(src[..p])| && dst + |Expand(src[p..])| == data.Length
      invariant data[..dst] == Expand(src[..p])
    {
      ExpandStep(src, p);
      if src[p] == LF {
        data[dst] := CR;
        dst := dst + 1;
      }
      data[dst] := src[p];
      dst := dst + 1;
    }
    assert data[..] == data[..dst];
  }

  lemma ExpandEnds(src: seq<byte>)
    ensures src[..0] == [] && src[0..] == src[..|src|] == src && src[|src|..] == []
    ensures Expand([]) == [] && CountLf([]) == 0
  {
  }

  lemma CountStep(src: seq<byte>, p: nat)
    requires p < |src|
    ensures CountLf(src[..p + 1]) == CountLf(src[..p]) + if src[p] == LF then 1 else 0
  {
    assert src[..p + 1] == src[..p] + [src[p]];
    CountLfSplits(src[..p], [src[p]]);
    assert [src[p]][1..] == [];
  }

  lemma ExpandStep(src: seq<byte>, p: nat)
    requires p < |src|
    ensures Expand(src[..p + 1]) == Expand(src[..p]) + Stored(src[p])
            && Expand(src[p..]) == Stored(src[p]) + Expand(src[p + 1..])
  {
    hide Stored;
    assert src[..p + 1] == src[..p] + [src[p]];
    ExpandSplits(src[..p], [src[p]]);
    assert [src[p]][1..] == [];
  }

  /** A chunk detached after one of its bytes was read: that byte comes again and a later one is lost. */
  lemma DetachRepeats()
    ensures var buffers: seq<seq<byte>> := [[1, 2], [3, 4]];
            && Concat(buffers)[1..] == [2, 3, 4] && !StartsAgain(buffers, 1)
            && buffers[0] + Concat(buffers[1..])[1..] == [1, 2, 4]
  {
    var buffers: seq<seq<byte>> := [[1, 2], [3, 4]];
    assert buffers[1..] == [[3, 4]] && [[3, 4]][1..] == [];
    assert Concat([[3, 4]]) == [3, 4];
    assert Concat(buffers) == [1, 2, 3, 4];
    assert Concat(buffers)[1..][0] == 2 && buffers[0][0] == 1;
  }
}
