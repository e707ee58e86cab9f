/** Removing the beginning of a file in place. */
module FatFs {
  import opened CTypes

  const BUFFER_SIZE: uint32 := 256

  /** The result code of an operation. */
  type Code = uint8
  const OK: Code := 0
  type Error = c: Code | c != OK witness 1

  /** What becomes of an operation.  A read or write that fails may still have moved
      some bytes. */
  datatype Outcome = Done | Failed(error: Error, moved: nat) {
    function Code(): Code { if Done? then OK else error }

    /** How many of n bytes are moved. */
    function Of(n: nat): (m: nat)
      ensures m <= n && (Done? ==> m == n)
    {
      if Done? || moved > n then n else moved
    }
  }

  function Overwritten(data: seq<uint8>, pos: nat, b: seq<uint8>): seq<uint8>
    requires pos + |b| <= |data|
  {
    data[..pos] + b + data[pos + |b|..]
  }

  /** A file.  The operations on it are numbered; `outcomes` tells what becomes of
      each, so that every pattern of failures is covered. */
  class File {
    var data: seq<uint8>
    var pos: nat
    var count: nat
    const outcomes: nat -> Outcome

    ghost predicate Valid()
      reads this
    {
      pos <= |data| < 0x1_0000_0000
    }

    constructor (data: seq<uint8>, outcomes: nat -> Outcome)
      requires |data| < 0x1_0000_0000
      ensures Valid() && this.data == data && this.outcomes == outcomes && count == 0
    {
      this.data := data;
      this.outcomes := outcomes;
      pos, count := 0, 0;
    }

    method Seek(p: nat) returns (fr: Code)
      requires Valid() && p <= |data|
      modifies this`pos, this`count
      ensures fr == outcomes(old(count)).Code() && count == old(count) + 1
      ensures pos == if fr == OK then p else old(pos)
    {
      fr := outcomes(count).Code();
      count := count + 1;
      if fr == OK {
        pos := p;
      }
    }

    method Read(n: nat) returns (fr: Code, b: seq<uint8>)
      requires Valid() && pos + n <= |data|
      modifies this`pos, this`count
      ensures fr == outcomes(old(count)).Code() && count == old(count) + 1
      ensures old(pos) <= pos <= old(pos) + n && b == data[old(pos)..pos] && (fr == OK ==> |b| == n)
    {
      var done := outcomes(count);
      fr := done.Code();
      count := count + 1;
      b := data[pos..pos + done.Of(n)];
      pos := pos + |b|;
    }

    method Write(b: seq<uint8>) returns (fr: Code, written: nat)
      requires Valid() && pos + |b| <= |data|
      modifies this
      ensures fr == outcomes(old(count)).Code() && count == old(count) + 1
      ensures written <= |b| && pos == old(pos) + written && (fr == OK ==> written == |b|)
      ensures data == Overwritten(old(data), old(pos), b[..written])
    {
      var done := outcomes(count);
      fr := done.Code();
      count := count + 1;
      written := done.Of(|b|);
      data := Overwritten(data, pos, b[..written]);
      pos := pos + written;
    }

    method Truncate() returns (fr: Code)
      requires Valid()
      modifies this`data, this`count
      ensures fr == outcomes(old(count)).Code() && count == old(count) + 1
      ensures data == if fr == OK then old(data)[..pos] else old(data)
    {
      fr := outcomes(count).Code();
      count := count + 1;
      if fr == OK {
        data := data[..pos];
      }
    }
  }

  /** The operations from number i on succeed, up to but not including number j. */
  ghost predicate Succeed(outcomes: nat -> Outcome, i: nat, j: nat) {
    forall k: nat :: i <= k < j ==> outcomes(k).Done?
  }

  lemma FailureSpreads(outcomes: nat -> Outcome, i: nat, j: nat, k: nat, l: nat)
    requires i <= j && k <= l && !Succeed(outcomes, j, k)
    ensures !Succeed(outcomes, i, l)
  {
  }

  /** The first w bytes of what is to stay have been moved to the front. */
  function Shifted(data: seq<uint8>, index: nat, w: nat): seq<uint8>
    requires index + w <= |data|
  {
    data[index..index + w] + data[w..]
  }

  /** What is to stay. */
  function Tail(data: seq<uint8>, index: nat): seq<uint8> { if index <= |data| then data[index..] else [] }

  /** The bytes read for a block have not been overwritten by the blocks before it. */
  lemma UnreadIsIntact(data: seq<uint8>, index: nat, w: nat, n: nat)
    requires index + w + n <= |data|
    ensures Shifted(data, index, w)[index + w..index + w + n] == data[index + w..index + w + n]
  {
  }

  lemma ShiftGrows(data: seq<uint8>, index: nat, w: nat, b: seq<uint8>, m: nat)
    requires index + w + |b| <= |data| && b == data[index + w..index + w + |b|] && m <= |b|
    ensures Overwritten(Shifted(data, index, w), w, b[..m]) == Shifted(data, index, w + m)
  {
  }

  /** Reads a block and goes to where it belongs. */
  method FetchBlock(f: File, ghost data: seq<uint8>, index: nat, w: nat, n: nat)
    returns (fr: Code, block: seq<uint8>)
    requires f.Valid() && index + w + n <= |data| && f.data == Shifted(data, index, w)
    modifies f`pos, f`count
    ensures f.Valid() && |block| <= n
    ensures fr == OK <==> Succeed(f.outcomes, old(f.count), old(f.count) + 3)
    ensures fr == OK ==> block == data[index + w..index + w + n] && f.pos == w && f.count == old(f.count) + 3
  {
    block := [];
    fr := f.Seek(index + w);
    if fr != OK { return; }
    UnreadIsIntact(data, index, w, n);
    fr, block := f.Read(n);
    if fr != OK { return; }
    fr := f.Seek(w);
  }

  /** The body of the loop: one block goes to the front.  Wherever it fails, the front
      has only grown by bytes that belong there. */
  method MoveBlock(f: File, ghost data: seq<uint8>, index: nat, w: nat, n: nat)
    returns (fr: Code, read: nat, written: nat)
    requires f.Valid() && 0 < index && index + w + n <= |data| && f.data == Shifted(data, index, w)
    modifies f
    ensures f.Valid() && written <= n && f.data == Shifted(data, index, w + written)
    ensures fr == OK <==> Succeed(f.outcomes, old(f.count), old(f.count) + 4)
    ensures fr == OK ==> read == written == n && f.count == old(f.count) + 4
  {
    var block;
    written := 0;
    fr, block := FetchBlock(f, data, index, w, n);
    read := |block|;
    if fr != OK { return; }
    fr, written := f.Write(block);
    ShiftGrows(data, index, w, block, written);
  }

  /** The number of blocks that n bytes take. */
  function Blocks(n: nat): nat { (n + BUFFER_SIZE - 1) / BUFFER_SIZE }

  lemma OneBlockLess(n: nat, blockSize: nat)
    requires 0 < n && blockSize == if n > BUFFER_SIZE then BUFFER_SIZE else n
    ensures Blocks(n) == Blocks(n - blockSize) + 1
  {
  }

  /** The loop: as long as bytes are left, a block of them is moved. */
  method MoveTail(f: File, index: uint32) returns (fr: Code, ghost w: nat)
    requires f.Valid() && 0 < index <= |f.data|
    modifies f
    ensures f.Valid() && index + w <= |old(f.data)| && f.data == Shifted(old(f.data), index, w)
    ensures fr == OK <==> Succeed(f.outcomes, old(f.count), old(f.count) + 4 * Blocks(|old(f.data)| - index))
    ensures fr == OK ==> w == |old(f.data)| - index && f.count == old(f.count) + 4 * Blocks(w)
  {
    ghost var data, first, last := f.data, f.count, f.count + 4 * Blocks(|f.data| - index);
    var readIndex: uint32, writeIndex: uint32, totalSize: uint32 := index, 0, |f.data| - index;
    fr, w := OK, 0;
    assert f.data == Shifted(data, index, 0);
    while totalSize > 0
      invariant f.Valid() && readIndex == index + writeIndex && readIndex + totalSize == |data|
      invariant f.data == Shifted(data, index, writeIndex)
      invariant first <= f.count && f.count + 4 * Blocks(totalSize) == last
      invariant fr == OK && Succeed(f.outcomes, first, f.count)
    {
      var blockSize := if totalSize > BUFFER_SIZE then BUFFER_SIZE else totalSize;
      OneBlockLess(totalSize, blockSize);
      var read, written;
      ghost var now := f.count;
      fr, read, written := MoveBlock(f, data, index, writeIndex, blockSize);
      if fr != OK {
        w := writeIndex + written;
        FailureSpreads(f.outcomes, first, now, now + 4, last);
        return;
      }
      totalSize := totalSize - blockSize;
      readIndex := readIndex + read;
      writeIndex := writeIndex + written;
    }
    w := writeIndex;
  }

  /** Cutting the end off.  What the truncation itself reports is not looked at. */
  method CutAt(f: File, newSize: nat) returns (fr: Code)
    requires f.Valid() && newSize <= |f.data|
    modifies f
    ensures f.Valid() && (f.data == old(f.data) || f.data == old(f.data)[..newSize])
    ensures fr == OK <==> f.outcomes(old(f.count)).Done? && f.outcomes(old(f.count) + 2).Done?
    ensures fr == OK ==> f.pos == 0
    ensures f.outcomes(old(f.count)).Done?
            ==> f.data == if f.outcomes(old(f.count) + 1).Done? then old(f.data)[..newSize] else old(f.data)
  {
    fr := f.Seek(newSize);
    if fr != OK { return; }
    var ignored := f.Truncate();
    fr := f.Seek(0);
  }

  /** Keeps what is behind the index.

      If every operation succeeds, exactly that stays, and the position is at its start
      unless there was nothing to do.  Whatever fails, no byte that is to stay is lost:
      as long as the end has not been cut off, the file holds a front part of them and,
      behind it, all that it held there.  But success is also reported when only the
      truncation has failed, and then the old end is still there. */
  method TruncateBeginning(f: File, index: uint32) returns (fr: Code, ghost w: nat)
    requires f.Valid()
    modifies f
    ensures f.Valid()
    ensures index == 0 || old(f.data) == [] ==> fr == OK && f.data == old(f.data) && f.pos == old(f.pos)
    ensures 0 < index && old(f.data) != [] && fr == OK ==> f.pos == 0
    ensures 0 < index <= |old(f.data)| ==>
              && index + w <= |old(f.data)|
              && (f.data == Shifted(old(f.data), index, w) || f.data == Tail(old(f.data), index))
              && var last := old(f.count) + 4 * Blocks(|old(f.data)| - index);
                 && (fr == OK <==> Succeed(f.outcomes, old(f.count), last + 1) && f.outcomes(last + 2).Done?)
                 && (fr == OK ==> w == |old(f.data)| - index
                                  && (f.data == Tail(old(f.data), index) <==> f.outcomes(last + 1).Done?))
    ensures index > |old(f.data)| > 0 ==>
              && (fr == OK <==> Succeed(f.outcomes, old(f.count), old(f.count) + 2))
              && f.data == if fr == OK then [] else old(f.data)
  {
    w := 0;
    if index == 0 || |f.data| == 0 {
      return OK, 0;
    }
    if index > |f.data| {
      fr := f.Seek(0);
      if fr != OK { return; }
      fr := f.Truncate();
      return;
    }
    var newSize := |f.data| - index;
    fr, w := MoveTail(f, index);
    if fr != OK { return; }
    fr := CutAt(f, newSize);
  }
}
