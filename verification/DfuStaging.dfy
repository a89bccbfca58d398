/**
 The receiver's write path: patch bytes gather in a 64-byte buffer and reach the
 staging flash in whole blocks, because flash takes only aligned writes. To its caller
 it is an append.
 */
module DfuStaging {
  import opened Bits
  import opened Seqs
  import opened DfuProtocol

  const PAGE_SIZE: nat := 4096
  const HDR_OFFSET: nat := 0
  const PATCH_OFFSET: nat := 2 * PAGE_SIZE
  const ERASED: byte := 0xff

  class Staging {
    const flash: array<byte>
    const wbuf: array<byte>
    var wpos: nat
    var wlen: nat
    /** What has been accepted since the last rewind. */
    ghost var patch: seq<byte>

    /** The area is whole pages, and the two buffers are apart. */
    ghost predicate Fixed() {
      && flash.Length >= PATCH_OFFSET && flash.Length % PAGE_SIZE == 0
      && wbuf.Length == WBUF_SZ
      && flash != wbuf
    }

    ghost function Room(): nat
      requires Fixed()
    {
      flash.Length - PATCH_OFFSET
    }

    /** Full blocks are in flash and the rest is in the buffer, in order. */
    ghost predicate Valid()
      reads this, flash, wbuf
    {
      && Fixed()
      && wlen < WBUF_SZ && wlen <= |patch| <= Room()
      && wpos == PATCH_OFFSET + |patch| - wlen
      && (|patch| - wlen) % WBUF_SZ == 0
      && flash[PATCH_OFFSET..wpos] == patch[..|patch| - wlen]
      && wbuf[..wlen] == patch[|patch| - wlen..]
    }

    constructor (pages: nat)
      requires pages >= 2
      ensures Valid() && patch == [] && fresh(flash) && fresh(wbuf) && flash.Length == pages * PAGE_SIZE
    {
      flash := new byte[pages * PAGE_SIZE](_ => ERASED);
      wbuf := new byte[WBUF_SZ](_ => 0);
      wpos, wlen, patch := PATCH_OFFSET, 0, [];
    }

    method Rewind()
      requires Fixed()
      modifies this
      ensures Valid() && patch == []
    {
      wpos, wlen, patch := PATCH_OFFSET, 0, [];
    }

    /** A flash write of the first `n` buffered bytes at the write position. */
    method Put(n: nat)
      requires Fixed() && n <= WBUF_SZ && wpos + n <= flash.Length
      modifies flash
      ensures flash[..] == old(flash[..])[..wpos] + wbuf[..n] + old(flash[..])[wpos + n..]
      ensures wbuf[..] == old(wbuf[..])
    {
      forall i | 0 <= i < n {
        flash[wpos + i] := wbuf[i];
      }
    }

    /** Copies `src` into the buffer behind what it holds. */
    method Fill(src: seq<byte>)
      requires Fixed() && wlen + |src| <= WBUF_SZ
      modifies wbuf, this`wlen
      ensures wlen == old(wlen) + |src|
      ensures wbuf[..wlen] == old(wbuf[..wlen]) + src
      ensures flash[..] == old(flash[..])
    {
      forall i | 0 <= i < |src| {
        wbuf[wlen + i] := src[i];
      }
      wlen := wlen + |src|;
    }

    /** A buffer that has filled up is written out as one block. */
    method FlushBlock(writes: bool) returns (ok: bool)
      requires Fixed() && wlen == WBUF_SZ && |patch| % WBUF_SZ == 0 && WBUF_SZ <= |patch| <= Room()
      requires wpos == PATCH_OFFSET + |patch| - WBUF_SZ
      requires flash[PATCH_OFFSET..wpos] == patch[..|patch| - WBUF_SZ] && wbuf[..] == patch[|patch| - WBUF_SZ..]
      modifies this`wpos, this`wlen, flash
      ensures ok == writes
      ensures ok ==> Valid()
      ensures flash[..PATCH_OFFSET] == old(flash[..PATCH_OFFSET])
    {
      ok := writes;
      if ok {
        ghost var was := flash[..];
        Put(WBUF_SZ);
        assert flash[..][PATCH_OFFSET..PATCH_OFFSET + |patch|] == flash[PATCH_OFFSET..wpos + WBUF_SZ];
        assert flash[..][..PATCH_OFFSET] == flash[..PATCH_OFFSET];
        Landed(was, wpos, wbuf[..], WBUF_SZ, patch);
        wpos := wpos + WBUF_SZ;
        wlen := 0;
      }
    }

    /** Appends what still fits the buffer, writing the block out if that fills it. */
    method WritePart(part: seq<byte>, writes: bool) returns (ok: bool)
      requires Valid() && 0 < |part| <= WBUF_SZ - wlen && |patch| + |part| <= Room()
      modifies this, flash, wbuf
      ensures ok <==> writes || old(wlen) + |part| < WBUF_SZ
      ensures ok ==> Valid()
      ensures patch == old(patch) + part
      ensures flash[..PATCH_OFFSET] == old(flash[..PATCH_OFFSET])
    {
      ghost var full := |patch| - wlen;
      Fill(part);
      patch := patch + part;
      ok := true;
      assert patch[..full] == old(patch)[..full] && patch[full..] == old(patch)[full..] + part;
      if wlen == WBUF_SZ {
        ok := FlushBlock(writes);
      }
    }

    /** Appends `data`; fails only if a block had to be written and the write failed. */
    method Write(data: seq<byte>, writes: bool) returns (ok: bool)
      requires Valid() && |patch| + |data| <= Room()
      modifies this, flash, wbuf
      ensures ok <==> writes || (|old(patch)| + |data|) / WBUF_SZ == |old(patch)| / WBUF_SZ
      ensures ok ==> Valid() && patch == old(patch) + data
      ensures flash[..PATCH_OFFSET] == old(flash[..PATCH_OFFSET])
    {
      ok := true;
      var left := data;
      while left != []
        invariant Valid() && patch + left == old(patch) + data
        invariant writes || |patch| / WBUF_SZ == |old(patch)| / WBUF_SZ
        invariant flash[..PATCH_OFFSET] == old(flash[..PATCH_OFFSET])
        decreases |left|
      {
        var n := if |left| < WBUF_SZ - wlen then |left| else WBUF_SZ - wlen;
        NextBlock(|patch|, wlen, n);
        CutRest(left, 0, n);
        ghost var before := patch;
        ok := WritePart(left[..n], writes);
        if !ok {
          MoreBlocks(|patch|, |data| + |old(patch)|);
          return;
        }
        Assoc(before, left[..n], left[n..]);
        assert left[..n] + left[n..] == left;
        left := left[n..];
      }
      Empty(patch);
    }

    /** Fills the last word of the buffer with erased bytes. */
    method Pad()
      requires Fixed() && wlen < WBUF_SZ
      modifies this`wlen, wbuf
      ensures wlen == (old(wlen) + 3) / 4 * 4
      ensures wbuf[..old(wlen)] == old(wbuf[..wlen])
      ensures flash[..] == old(flash[..])
    {
      while wlen % 4 != 0
        invariant old(wlen) <= wlen <= (old(wlen) + 3) / 4 * 4
        invariant wbuf[..old(wlen)] == old(wbuf[..wlen])
        invariant flash[..] == old(flash[..])
        decreases WBUF_SZ - wlen
      {
        wbuf[wlen] := ERASED;
        wlen := wlen + 1;
      }
    }

    /** Writes the padded tail behind the blocks already there. */
    method PutTail(ghost tail: nat)
      requires Fixed() && tail <= |patch| <= Room() && tail <= wlen < tail + 4 && wlen % 4 == 0 && wlen <= WBUF_SZ
      requires wpos == PATCH_OFFSET + |patch| - tail && (|patch| - tail) % WBUF_SZ == 0
      requires flash[PATCH_OFFSET..wpos] == patch[..|patch| - tail] && wbuf[..tail] == patch[|patch| - tail..]
      modifies this`wpos, this`wlen, flash
      ensures flash[PATCH_OFFSET..PATCH_OFFSET + |patch|] == patch
      ensures flash[..PATCH_OFFSET] == old(flash[..PATCH_OFFSET])
    {
      Padded(flash.Length, wpos, tail, wlen, |patch|);
      ghost var was, block := flash[..], wbuf[..wlen];
      assert block[..tail] == wbuf[..tail];
      assert was[PATCH_OFFSET..wpos] == flash[PATCH_OFFSET..wpos];
      Put(wlen);
      Landed(was, wpos, block, tail, patch);
      Within(flash[..], was, |patch|);
      wpos := wpos + wlen;
      wlen := 0;
    }

    /** The tail of the patch, padded out to a whole word. */
    method FlushFinal(writes: bool) returns (ok: bool)
      requires Valid()
      modifies this`wpos, this`wlen, flash, wbuf
      ensures ok <==> writes || |patch| % WBUF_SZ == 0
      ensures ok ==> flash[PATCH_OFFSET..PATCH_OFFSET + |patch|] == patch
      ensures flash[..PATCH_OFFSET] == old(flash[..PATCH_OFFSET])
    {
      ghost var tail := wlen;
      Tail(|patch|, tail);
      Pad();
      assert flash[PATCH_OFFSET..wpos] == patch[..|patch| - tail] by {
        Within(flash[..], old(flash[..]), |patch| - tail);
      }
      ok := true;
      if wlen > 0 {
        ok := writes;
        if ok {
          PutTail(tail);
        }
      }
    }

    method Erase()
      requires Fixed()
      modifies flash
      ensures forall i :: 0 <= i < flash.Length ==> flash[i] == ERASED
    {
      forall i | 0 <= i < flash.Length {
        flash[i] := ERASED;
      }
    }

    /** The header goes in last, on its own page. */
    method PutHeader(head: array<byte>)
      requires Fixed() && head.Length == HEAD_LEN && head != flash
      modifies flash
      ensures flash[..HDR_LEN] == head[..HDR_LEN]
      ensures flash[PATCH_OFFSET..] == old(flash[PATCH_OFFSET..])
    {
      forall i | 0 <= i < HDR_LEN {
        flash[HDR_OFFSET + i] := head[i];
      }
    }
  }

  /** A block written where the patch leaves off extends it, and nothing before it moves. */
  lemma Landed(was: seq<byte>, wpos: nat, block: seq<byte>, tail: nat, patch: seq<byte>)
    requires tail <= |patch| && tail <= |block| && PATCH_OFFSET <= wpos && wpos + |block| <= |was|
    requires wpos + tail == PATCH_OFFSET + |patch|
    requires was[PATCH_OFFSET..wpos] == patch[..|patch| - tail] && block[..tail] == patch[|patch| - tail..]
    ensures var now := was[..wpos] + block + was[wpos + |block|..];
            && |now| == |was|
            && now[PATCH_OFFSET..PATCH_OFFSET + |patch|] == patch
            && now[..PATCH_OFFSET] == was[..PATCH_OFFSET]
  {
    var now := was[..wpos] + block + was[wpos + |block|..];
    assert now[PATCH_OFFSET..wpos] == was[PATCH_OFFSET..wpos];
    assert now[wpos..wpos + tail] == block[..tail];
    assert now[PATCH_OFFSET..wpos + tail] == now[PATCH_OFFSET..wpos] + now[wpos..wpos + tail];
    assert patch == patch[..|patch| - tail] + patch[|patch| - tail..];
  }

  /** Two ways to name the parts of an area that is the same. */
  lemma Within(now: seq<byte>, was: seq<byte>, n: nat)
    requires |now| >= PATCH_OFFSET + n && |was| == |now|
    ensures now == was ==> now[PATCH_OFFSET..PATCH_OFFSET + n] == was[PATCH_OFFSET..PATCH_OFFSET + n]
  {
  }

  lemma Tail(patch: nat, tail: nat)
    requires tail < WBUF_SZ && tail <= patch && (patch - tail) % WBUF_SZ == 0
    ensures tail == patch % WBUF_SZ
  {
  }

  /** Padding to a word stays inside an area of whole pages. */
  lemma Padded(length: nat, wpos: nat, tail: nat, wlen: nat, patch: nat)
    requires length % PAGE_SIZE == 0 && wpos == PATCH_OFFSET + patch - tail && (patch - tail) % WBUF_SZ == 0
    requires tail <= wlen < tail + 4 && wlen % 4 == 0 && tail <= patch <= length - PATCH_OFFSET
    ensures wpos + wlen <= length
  {
  }

  lemma NextBlock(patch: nat, wlen: nat, n: nat)
    requires wlen < WBUF_SZ && wlen <= patch && (patch - wlen) % WBUF_SZ == 0 && n <= WBUF_SZ - wlen
    ensures (patch + n) / WBUF_SZ == patch / WBUF_SZ + (if wlen + n < WBUF_SZ then 0 else 1)
  {
  }

  lemma MoreBlocks(a: nat, b: nat)
    requires a <= b
    ensures a / WBUF_SZ <= b / WBUF_SZ
  {
  }
}
