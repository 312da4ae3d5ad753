/**
 The bounded FIFO queue behind a pipe: what reads and writes do to a queue of bytes, and the
 ring buffer that implements it in a fixed array with wrapping indices.
 */
module RingBuffer {

  function Min(a: nat, b: nat): nat { if a < b then a else b }

  /** The bytes a write of `data` accepts into queue `q` of capacity `cap`. */
  function Accepted(q: seq<char>, cap: nat, data: seq<char>): seq<char>
    requires |q| <= cap
  {
    data[..Min(|data|, cap - |q|)]
  }

  /** `now` is `was` with `piece` written over it at `at`. */
  ghost predicate Wrote(was: seq<char>, now: seq<char>, at: nat, piece: seq<char>) {
    && |now| == |was| && at + |piece| <= |was|
    && forall j {:trigger now[j]} :: 0 <= j < |now| ==>
         now[j] == if at <= j < at + |piece| then piece[j - at] else was[j]
  }

  lemma WroteTwice(a: seq<char>, b: seq<char>, c: seq<char>, at: nat, p: seq<char>, p': seq<char>)
    requires Wrote(a, b, at, p) && Wrote(b, c, at + |p|, p')
    ensures Wrote(a, c, at, p + p')
  {}

  /** The bytes of `b` from index `r` round to index `w`: a whole lap when they meet. */
  function Lap(b: seq<char>, r: nat, w: nat): seq<char>
    requires r < |b| && w < |b|
  {
    if r < w then b[r..w] else b[r..] + b[..w]
  }

  /** The queue a ring holds. */
  function Queue(b: seq<char>, r: nat, w: nat, empty: bool): seq<char>
    requires r < |b| && w < |b|
  {
    if empty then [] else Lap(b, r, w)
  }

  /** How far one can go from `i` without passing `stop` or the end of the buffer. */
  function Straight(size: nat, i: nat, stop: nat): nat
    requires i < size && stop < size
  {
    if i < stop then stop - i else size - i
  }

  function Wrapped(size: nat, i: nat): nat { if i >= size then 0 else i }

  /** The two flag tests agree with the queue length. */
  lemma TestsAgree(b: seq<char>, r: nat, w: nat, empty: bool)
    requires r < |b| && w < |b| && (empty ==> r == w)
    ensures |Queue(b, r, w, empty)| <= |b|
    ensures empty <==> |Queue(b, r, w, empty)| == 0
    ensures !empty && w == r <==> |Queue(b, r, w, empty)| == |b|
  {}

  lemma LapRead(b: seq<char>, r: nat, w: nat, n: nat)
    requires r < |b| && w < |b| && 0 < n <= Straight(|b|, r, w)
    ensures n <= |Lap(b, r, w)| && Lap(b, r, w)[..n] == b[r..r + n]
    ensures Wrapped(|b|, r + n) == w <==> n == |Lap(b, r, w)|
    ensures Wrapped(|b|, r + n) != w ==> Lap(b, Wrapped(|b|, r + n), w) == Lap(b, r, w)[n..]
  {
    if r < w {
    } else if r + n < |b| {
      assert Lap(b, r, w)[n..] == b[r + n..] + b[..w];
    } else {
      assert b[r..][..n] == b[r..];
      assert Lap(b, r, w)[n..] == b[..w];
    }
  }

  /** A contiguous read leaves the rest of the queue. */
  lemma QueueRead(b: seq<char>, r: nat, w: nat, n: nat)
    requires r < |b| && w < |b| && 0 < n <= Straight(|b|, r, w)
    ensures var q, r' := Queue(b, r, w, false), Wrapped(|b|, r + n);
            n <= |q| && b[r..r + n] == q[..n] && Queue(b, r', w, r' == w) == q[n..]
  {
    LapRead(b, r, w, n);
  }

  /** A contiguous write appends to the queue. */
  lemma QueueWrite(b: seq<char>, b': seq<char>, r: nat, w: nat, empty: bool, piece: seq<char>)
    requires r < |b| && w < |b| && 0 < |piece| <= Straight(|b|, w, r)
    requires empty <==> r == w
    requires Wrote(b, b', w, piece)
    ensures var q, w' := Queue(b, r, w, empty), Wrapped(|b|, w + |piece|);
            |q| + |piece| <= |b| && Queue(b', r, w', false) == q + piece
  {
    assert b'[w..w + |piece|] == piece;
    if r < w {
      WriteBehind(b, b', r, w, piece);
    } else if w < r {
      assert b'[r..] == b[r..];
      assert b'[..w + |piece|] == b[..w] + piece;
    }
  }

  lemma WriteBehind(b: seq<char>, b': seq<char>, r: nat, w: nat, piece: seq<char>)
    requires r < w < |b| && 0 < |piece| <= |b| - w
    requires Wrote(b, b', w, piece)
    ensures b'[r..w + |piece|] == b[r..w] + piece
    ensures Lap(b', r, Wrapped(|b|, w + |piece|)) == b'[r..w + |piece|]
  {}

  /** The copy loop of both directions: src[cur..end] to dst, starting at `at`. */
  method Copy(src: array<char>, cur: nat, end: nat, dst: array<char>, at: nat) returns (index: nat)
    requires cur <= end <= src.Length && at + (end - cur) <= dst.Length && src != dst
    modifies dst
    ensures index == end - cur
    ensures Wrote(old(dst[..]), dst[..], at, src[cur..end])
  {
    index := 0;
    ghost var was, piece := dst[..], src[cur..end];
    while cur + index != end
      invariant cur + index <= end
      invariant forall j :: 0 <= j < dst.Length ==> dst[j] == if at <= j < at + index then piece[j - at] else was[j]
    {
      dst[at + index] := src[cur + index];
      index := index + 1;
    }
  }

  /** `got` has been taken off the front of `q` and written to `was` at `at`; `rest` is left. */
  ghost predicate Taken(q: seq<char>, got: seq<char>, rest: seq<char>, was: seq<char>, now: seq<char>, at: nat) {
    q == got + rest && Wrote(was, now, at, got)
  }

  lemma TakenMore(q: seq<char>, got: seq<char>, rest: seq<char>, was: seq<char>, now: seq<char>, at: nat,
                  n: nat, now': seq<char>)
    requires Taken(q, got, rest, was, now, at) && n <= |rest| && Wrote(now, now', at + |got|, rest[..n])
    ensures Taken(q, got + rest[..n], rest[n..], was, now', at)
  {
    WroteTwice(was, now, now', at, got, rest[..n]);
    assert rest == rest[..n] + rest[n..];
  }

  lemma TakenNone(q: seq<char>, was: seq<char>, at: nat)
    requires at <= |was|
    ensures Taken(q, [], q, was, was, at)
  {}

  lemma TakenAll(q: seq<char>, got: seq<char>, rest: seq<char>, was: seq<char>, now: seq<char>, at: nat, size: nat)
    requires Taken(q, got, rest, was, now, at) && |got| <= size && (|got| == size || |rest| == 0)
    ensures |got| == Min(size, |q|) && rest == q[|got|..] && Wrote(was, now, at, q[..|got|])
  {
    assert got == q[..|got|];
  }

  /** The first `k` bytes of `data` have been appended to `q`. */
  ghost predicate Put(q: seq<char>, data: seq<char>, k: nat, now: seq<char>) {
    k <= |data| && now == q + data[..k]
  }

  lemma PutMore(q: seq<char>, data: seq<char>, k: nat, now: seq<char>, n: nat, piece: seq<char>)
    requires Put(q, data, k, now) && k + n <= |data| && piece == data[k..k + n]
    ensures Put(q, data, k + n, now + piece)
  {
    assert data[..k + n] == data[..k] + piece;
  }

  lemma PutAll(q: seq<char>, data: seq<char>, k: nat, now: seq<char>, cap: nat)
    requires Put(q, data, k, now) && |now| <= cap && (k == |data| || |now| == cap)
    ensures |q| <= cap && now == q + Accepted(q, cap, data) && k == |Accepted(q, cap, data)|
  {}

  class Ring {
    const Buffer: array<char>
    const Size: nat
    var ReadIndex: nat
    var WriteIndex: nat
    var Empty: bool

    ghost predicate Valid()
      reads this
    {
      && 0 < Size == Buffer.Length
      && ReadIndex < Size && WriteIndex < Size
      && (Empty ==> ReadIndex == WriteIndex)
    }

    /** The bytes in the ring, oldest first. */
    ghost function Contents(): seq<char>
      requires Valid()
      reads this, Buffer
    {
      Queue(Buffer[..], ReadIndex, WriteIndex, Empty)
    }

    constructor (buff: array<char>, size: nat)
      requires 0 < size == buff.Length
      ensures Valid() && Buffer == buff && Size == size && Contents() == []
    {
      Buffer, Size := buff, size;
      ReadIndex, WriteIndex, Empty := 0, 0, true;
    }

    predicate IsEmpty()
      requires Valid()
      reads this, Buffer
      ensures IsEmpty() <==> |Contents()| == 0
    {
      TestsAgree(Buffer[..], ReadIndex, WriteIndex, Empty);
      Empty
    }

    predicate IsFull()
      requires Valid()
      reads this, Buffer
      ensures IsFull() <==> |Contents()| == Size
      ensures |Contents()| <= Size
    {
      TestsAgree(Buffer[..], ReadIndex, WriteIndex, Empty);
      !Empty && WriteIndex == ReadIndex
    }

    /** One contiguous piece, up to the write index or the end of the buffer. */
    method ReadSmall(buff: array<char>, at: nat, size: nat) returns (index: nat)
      requires Valid() && !Empty && 0 < size && at + size <= buff.Length && buff != Buffer
      modifies `ReadIndex, buff
      ensures index == Min(size, Straight(Size, old(ReadIndex), WriteIndex))
      ensures ReadIndex == Wrapped(Size, old(ReadIndex) + index) && old(ReadIndex) + index <= Size
      ensures Wrote(old(buff[..]), buff[..], at, Buffer[old(ReadIndex)..old(ReadIndex) + index])
    {
      var cur := ReadIndex;
      var end := ReadIndex + size;
      if ReadIndex < WriteIndex {
        if end > WriteIndex {
          end := WriteIndex;
        }
        ReadIndex := end;
      } else {
        if end >= Size {
          end := Size;
          ReadIndex := 0;
        } else {
          ReadIndex := end;
        }
      }
      index := Copy(Buffer, cur, end, buff, at);
    }

    method WriteSmall(buff: array<char>, at: nat, size: nat) returns (index: nat)
      requires Valid() && !IsFull() && 0 < size && at + size <= buff.Length && buff != Buffer
      modifies `WriteIndex, Buffer
      ensures index == Min(size, Straight(Size, old(WriteIndex), ReadIndex))
      ensures WriteIndex == Wrapped(Size, old(WriteIndex) + index) && old(WriteIndex) + index <= Size
      ensures Wrote(old(Buffer[..]), Buffer[..], old(WriteIndex), buff[at..at + index])
    {
      var cur := WriteIndex;
      var end := WriteIndex + size;
      if WriteIndex < ReadIndex {
        if end > ReadIndex {
          end := ReadIndex;
        }
        WriteIndex := end;
      } else {
        if end >= Size {
          end := Size;
          WriteIndex := 0;
        } else {
          WriteIndex := end;
        }
      }
      index := Copy(buff, at, at + (end - cur), Buffer, cur);
    }

    /** One turn of the read loop. */
    method ReadTurn(buff: array<char>, at: nat, size: nat) returns (n: nat)
      requires Valid() && !Empty && 0 < size && at + size <= buff.Length && buff != Buffer
      modifies this, buff
      ensures Valid() && 0 < n <= size && n <= |old(Contents())|
      ensures Contents() == old(Contents())[n..]
      ensures Wrote(old(buff[..]), buff[..], at, old(Contents())[..n])
    {
      QueueRead(Buffer[..], ReadIndex, WriteIndex, Min(size, Straight(Size, ReadIndex, WriteIndex)));
      n := ReadSmall(buff, at, size);
      assert Buffer[..] == old(Buffer[..]);
      if ReadIndex == WriteIndex {
        Empty := true;
      }
    }

    /** A turn of the read loop, with what has been taken so far. */
    method ReadMore(buff: array<char>, at: nat, read: nat, size: nat,
                    ghost q: seq<char>, ghost got: seq<char>, ghost was: seq<char>)
      returns (n: nat, ghost got': seq<char>)
      requires Valid() && !Empty && |got| == read < size && at + size <= buff.Length && buff != Buffer
      requires Taken(q, got, Contents(), was, buff[..], at)
      modifies this, buff
      ensures Valid() && 0 < n && |got'| == read + n <= size
      ensures Taken(q, got', Contents(), was, buff[..], at)
    {
      ghost var rest, now := Contents(), buff[..];
      n := ReadTurn(buff, at + read, size - read);
      TakenMore(q, got, rest, was, now, at, n, buff[..]);
      got' := got + rest[..n];
    }

    /** Takes the oldest bytes, as many as asked for and present. */
    method Read(buff: array<char>, at: nat, size: nat) returns (read: nat)
      requires Valid() && at + size <= buff.Length && buff != Buffer
      modifies this, buff
      ensures Valid() && read == Min(size, |old(Contents())|)
      ensures Contents() == old(Contents())[read..]
      ensures Wrote(old(buff[..]), buff[..], at, old(Contents())[..read])
    {
      read := 0;
      ghost var q, was, got := Contents(), buff[..], [];
      TakenNone(q, was, at);
      while read < size && !IsEmpty()
        invariant Valid() && |got| == read <= size
        invariant Taken(q, got, Contents(), was, buff[..], at)
        decreases size - read
      {
        var n;
        n, got := ReadMore(buff, at, read, size, q, got, was);
        read := read + n;
      }
      TakenAll(q, got, Contents(), was, buff[..], at, size);
    }

    /** One turn of the write loop. */
    method WriteTurn(buff: array<char>, at: nat, size: nat) returns (n: nat)
      requires Valid() && !IsFull() && 0 < size && at + size <= buff.Length && buff != Buffer
      modifies this, Buffer
      ensures Valid() && 0 < n <= size
      ensures Contents() == old(Contents()) + buff[at..at + n]
    {
      ghost var b, piece := Buffer[..], buff[at..at + Min(size, Straight(Size, WriteIndex, ReadIndex))];
      n := WriteSmall(buff, at, size);
      QueueWrite(b, Buffer[..], ReadIndex, old(WriteIndex), Empty, piece);
      Empty := false;
    }

    /** A turn of the write loop, with what has been appended so far. */
    method WriteMore(buff: array<char>, at: nat, write: nat, size: nat, ghost q: seq<char>, ghost data: seq<char>)
      returns (n: nat)
      requires Valid() && !IsFull() && write < size && at + size <= buff.Length && buff != Buffer
      requires data == buff[at..at + size] && Put(q, data, write, Contents())
      modifies this, Buffer
      ensures Valid() && 0 < n && write + n <= size && Put(q, data, write + n, Contents())
    {
      ghost var now := Contents();
      n := WriteTurn(buff, at + write, size - write);
      ghost var piece := buff[at + write..at + write + n];
      assert |piece| == n == |data[write..write + n]|;
      assert forall i :: 0 <= i < n ==> piece[i] == buff[at + write + i] == data[write + i];
      assert piece == data[write..write + n];
      PutMore(q, data, write, now, n, piece);
    }

    /** Appends as many of the bytes as fit. */
    method Write(buff: array<char>, at: nat, size: nat) returns (write: nat)
      requires Valid() && at + size <= buff.Length && buff != Buffer
      modifies this, Buffer
      ensures Valid() && |old(Contents())| <= Size
      ensures Contents() == old(Contents()) + Accepted(old(Contents()), Size, buff[at..at + size])
      ensures write == |Accepted(old(Contents()), Size, buff[at..at + size])|
    {
      write := 0;
      ghost var q, data := Contents(), buff[at..at + size];
      assert Put(q, data, 0, q);
      while write < size && !IsFull()
        invariant Valid() && write <= size && data == buff[at..at + size]
        invariant Put(q, data, write, Contents())
        decreases size - write
      {
        var n := WriteMore(buff, at, write, size, q, data);
        write := write + n;
      }
      assert |Contents()| <= Size by { assert IsFull() || !IsFull(); }
      PutAll(q, data, write, Contents(), Size);
    }
  }
}
