/** The streaming SHA-1 object. Words are 32 bits, so the source's masking with 0xFFFFFFFF keeps
    every value. */
module Sha1Stream {
  import opened ByteValues
  import opened Sha1Spec

  function DigestOf(h: seq<bv32>): Digest
    requires |h| == 5
  {
    Digest(h[0], h[1], h[2], h[3], h[4])
  }

  class SHA1 {
    const H: array<bv32>
    const messageBlock: array<byte>
    var lengthLow: int
    var lengthHigh: int
    var messageBlockIndex: int
    var computed: bool
    var corrupted: bool
    ghost var absorbed: seq<byte>  // the message so far
    ghost var blocks: nat          // how many of its blocks have been processed

    ghost predicate Shape()
      reads this
    {
      && H.Length == 5 && messageBlock.Length == 64 && 0 <= messageBlockIndex < 64
      && 0 <= lengthLow < WORD32 && 0 <= lengthHigh < WORD32
    }

    /** The object can still take input: its two length words count the bits of the message, H is
        the result of the whole blocks, and the rest of the message waits in messageBlock. */
    ghost predicate Absorbing()
      reads this, H, messageBlock
    {
      && Shape() && |absorbed| == 64 * blocks + messageBlockIndex
      && lengthLow + WORD32 * lengthHigh == 8 * |absorbed|
      && DigestOf(H[..]) == Fold(absorbed[..64 * blocks])
      && messageBlock[..messageBlockIndex] == absorbed[64 * blocks..]
    }

    ghost predicate Valid()
      reads this, H, messageBlock
    {
      && Shape()
      && (!corrupted && !computed ==> Absorbing())
      && (!corrupted && computed ==> DigestOf(H[..]) == Sha1(absorbed) && 8 * |absorbed| < MAX_BITS)
    }

    constructor ()
      ensures Valid() && fresh(H) && fresh(messageBlock)
      ensures absorbed == [] && !computed && !corrupted
    {
      H := new bv32[5];
      messageBlock := new byte[64];
      new;
      Reset();
    }

    method Reset()
      requires H.Length == 5 && messageBlock.Length == 64
      modifies this, H
      ensures Valid() && absorbed == [] && !computed && !corrupted
    {
      lengthLow := 0;
      lengthHigh := 0;
      messageBlockIndex := 0;
      H[0] := 0x67452301;
      H[1] := 0xEFCDAB89;
      H[2] := 0x98BADCFE;
      H[3] := 0x10325476;
      H[4] := 0xC3D2E1F0;
      computed := false;
      corrupted := false;
      absorbed, blocks := [], 0;
      assert DigestOf(H[..]) == INITIAL;
    }

    /** Initialize the first 16 words. */
    method FirstWords() returns (w: array<bv32>)
      requires messageBlock.Length == 64
      ensures fresh(w) && w.Length == 80
      ensures forall i :: 0 <= i < 16 ==> w[i] == Schedule(messageBlock[..])[i]
    {
      ghost var block, ws := messageBlock[..], Schedule(messageBlock[..]);
      w := new bv32[80];
      for t := 0 to 16
        invariant forall i :: 0 <= i < t ==> w[i] == ws[i]
      {
        w[t] := Word(messageBlock[t * 4], messageBlock[t * 4 + 1], messageBlock[t * 4 + 2], messageBlock[t * 4 + 3]);
        ScheduleStep(block, t);
      }
    }

    method WordSequence() returns (w: array<bv32>)
      requires messageBlock.Length == 64
      ensures fresh(w) && w[..] == Schedule(messageBlock[..])
    {
      w := FirstWords();
      ghost var block, ws := messageBlock[..], Schedule(messageBlock[..]);
      for t := 16 to w.Length
        invariant forall i :: 0 <= i < t ==> w[i] == ws[i]
      {
        w[t] := Mix(w[t - 3], w[t - 8], w[t - 14], w[t - 16]);
        ScheduleStep(block, t);
      }
    }

    /** The four loops of 20 rounds. */
    method EightyRounds(w: array<bv32>) returns (a: bv32, b: bv32, c: bv32, d: bv32, e: bv32)
      requires H.Length == 5 && w.Length == 80
      ensures Digest(a, b, c, d, e) == Rounds(DigestOf(H[..]), w[..], |w[..]|)
    {
      ghost var h, ws := DigestOf(H[..]), w[..];
      var k := [0x5A827999, 0x6ED9EBA1, 0x8F1BBCDC, 0xCA62C1D6];
      a, b, c, d, e := H[0], H[1], H[2], H[3], H[4];
      for t := 0 to 20
        invariant Digest(a, b, c, d, e) == Rounds(h, ws, t)
      {
        var temp := Temp(a, Choose(b, c, d), e, w[t], k[0]);
        e := d;
        d := c;
        c := S(30, b);
        b := a;
        a := temp;
      }
      for t := 20 to 40
        invariant Digest(a, b, c, d, e) == Rounds(h, ws, t)
      {
        var temp := Temp(a, Parity(b, c, d), e, w[t], k[1]);
        e := d;
        d := c;
        c := S(30, b);
        b := a;
        a := temp;
      }
      for t := 40 to 60
        invariant Digest(a, b, c, d, e) == Rounds(h, ws, t)
      {
        var temp := Temp(a, Majority(b, c, d), e, w[t], k[2]);
        e := d;
        d := c;
        c := S(30, b);
        b := a;
        a := temp;
      }
      for t := 60 to w.Length
        invariant Digest(a, b, c, d, e) == Rounds(h, ws, t)
      {
        var temp := Temp(a, Parity(b, c, d), e, w[t], k[3]);
        e := d;
        d := c;
        c := S(30, b);
        b := a;
        a := temp;
      }
    }

    method ProcessMessageBlock()
      requires H.Length == 5 && messageBlock.Length == 64
      modifies this`messageBlockIndex, H
      ensures messageBlockIndex == 0
      ensures DigestOf(H[..]) == Compress(old(DigestOf(H[..])), old(messageBlock[..]))
    {
      ghost var h := DigestOf(H[..]);
      var w := WordSequence();
      var a, b, c, d, e := EightyRounds(w);
      H[0] := Add(H[0], a);
      H[1] := Add(H[1], b);
      H[2] := Add(H[2], c);
      H[3] := Add(H[3], d);
      H[4] := Add(H[4], e);
      assert DigestOf(H[..]) == Sum(h, Digest(a, b, c, d, e));
      messageBlockIndex := 0;
    }

    method Input(message: seq<byte>)
      requires Valid()
      modifies this, H, messageBlock
      ensures Valid()
      ensures computed == old(computed)
      ensures message == [] ==> absorbed == old(absorbed) && corrupted == old(corrupted)
      ensures message != [] && (old(computed) || old(corrupted)) ==> corrupted
      ensures message != [] && !old(computed) && !old(corrupted) ==>
        if 8 * (|old(absorbed)| + |message|) < MAX_BITS
        then !corrupted && absorbed == old(absorbed) + message
        else corrupted
    {
      if |message| == 0 {
        return;
      }
      if computed || corrupted {
        corrupted := true;
        return;
      }
      var i := 0;
      while i < |message| && !corrupted
        invariant 0 <= i <= |message| && !computed && Shape()
        invariant !corrupted ==> Absorbing() && absorbed == old(absorbed) + message[..i]
        invariant corrupted ==> 8 * (|old(absorbed)| + i) >= MAX_BITS
      {
        InputByte(message[i]);
        i := i + 1;
        assert message[..i] == message[..i - 1] + [message[i - 1]];
      }
    }

    /** Add the bits of one octet to the two length words. */
    method CountOctet(ghost octets: nat)
      requires 0 <= lengthLow < WORD32 && 0 <= lengthHigh < WORD32 && !corrupted && lengthLow + WORD32 * lengthHigh == 8 * octets
      modifies this`lengthLow, this`lengthHigh, this`corrupted
      ensures 0 <= lengthLow < WORD32 && 0 <= lengthHigh < WORD32
      ensures corrupted <==> 8 * (octets + 1) >= MAX_BITS
      ensures !corrupted ==> lengthLow + WORD32 * lengthHigh == 8 * (octets + 1)
    {
      assert lengthLow % 8 == 0;
      lengthLow := (lengthLow + 8) % WORD32;
      if lengthLow == 0 {
        lengthHigh := (lengthHigh + 1) % WORD32;
        if lengthHigh == 0 {
          corrupted := true;
        }
      }
    }

    /** Process a block that has become full. */
    method ProcessFullBlock()
      requires H.Length == 5 && messageBlock.Length == 64 && |absorbed| == 64 * blocks + 64
      requires DigestOf(H[..]) == Fold(absorbed[..64 * blocks]) && messageBlock[..] == absorbed[64 * blocks..]
      modifies this`messageBlockIndex, this`blocks, H
      ensures messageBlockIndex == 0 && blocks == old(blocks) + 1
      ensures DigestOf(H[..]) == Fold(absorbed)
    {
      FoldBlock(absorbed[..64 * blocks], messageBlock[..]);
      assert absorbed == absorbed[..64 * blocks] + messageBlock[..];
      ProcessMessageBlock();
      blocks := blocks + 1;
    }

    /** One turn of Input's loop. */
    method InputByte(octet: byte)
      requires Absorbing() && !corrupted
      modifies this, H, messageBlock
      ensures Shape() && computed == old(computed)
      ensures corrupted <==> 8 * (|old(absorbed)| + 1) >= MAX_BITS
      ensures !corrupted ==> Absorbing() && absorbed == old(absorbed) + [octet]
    {
      StoreOctet(octet);
      CountOctet(|absorbed| - 1);
      if messageBlockIndex == 64 {
        assert messageBlock[..] == messageBlock[..64];
        ProcessFullBlock();
        assert absorbed[..64 * blocks] == absorbed;
      }
    }

    method StoreOctet(octet: byte)
      requires messageBlock.Length == 64 && 0 <= messageBlockIndex < 64 && |absorbed| == 64 * blocks + messageBlockIndex
      requires messageBlock[..messageBlockIndex] == absorbed[64 * blocks..]
      modifies this`messageBlockIndex, this`absorbed, messageBlock
      ensures messageBlockIndex == old(messageBlockIndex) + 1 && absorbed == old(absorbed) + [octet]
      ensures absorbed[..64 * blocks] == old(absorbed[..64 * blocks])
      ensures messageBlock[..messageBlockIndex] == absorbed[64 * blocks..]
    {
      messageBlock[messageBlockIndex] := octet;
      messageBlockIndex := messageBlockIndex + 1;
      absorbed := absorbed + [octet];
    }

    /** Append zero octets up to position end of the block. */
    method ZeroUpTo(end: int)
      requires messageBlock.Length == 64 && 0 <= messageBlockIndex <= end <= 64
      modifies this`messageBlockIndex, messageBlock
      ensures messageBlockIndex == end
      ensures messageBlock[..end] == old(messageBlock[..messageBlockIndex]) + Zeros(end - old(messageBlockIndex))
    {
      while messageBlockIndex < end
        invariant old(messageBlockIndex) <= messageBlockIndex <= end
        invariant messageBlock[..messageBlockIndex]
          == old(messageBlock[..messageBlockIndex]) + Zeros(messageBlockIndex - old(messageBlockIndex))
      {
        messageBlock[messageBlockIndex] := 0;
        messageBlockIndex := messageBlockIndex + 1;
      }
    }

    /** The length field, high half first. */
    method StoreLength()
      requires messageBlock.Length == 64 && 0 <= lengthLow < WORD32 && 0 <= lengthHigh < WORD32
      modifies messageBlock
      ensures messageBlock[..] == old(messageBlock[..56]) + BigEndian(lengthLow + WORD32 * lengthHigh, 8)
    {
      messageBlock[56] := lengthHigh / 0x100_0000 % 256;
      messageBlock[57] := lengthHigh / 0x1_0000 % 256;
      messageBlock[58] := lengthHigh / 0x100 % 256;
      messageBlock[59] := lengthHigh % 256;
      messageBlock[60] := lengthLow / 0x100_0000 % 256;
      messageBlock[61] := lengthLow / 0x1_0000 % 256;
      messageBlock[62] := lengthLow / 0x100 % 256;
      messageBlock[63] := lengthLow % 256;
      LengthOctets(lengthLow, lengthHigh);
      assert messageBlock[..] == messageBlock[..56] + Octets(lengthHigh) + Octets(lengthLow);
    }

    /** The first padding octet, then zeros up to position end. */
    method EndMessage(end: int)
      requires messageBlock.Length == 64 && 0 <= messageBlockIndex < end <= 64
      modifies this`messageBlockIndex, messageBlock
      ensures messageBlockIndex == end
      ensures messageBlock[..end]
              == old(messageBlock[..messageBlockIndex]) + [0x80] + Zeros(end - old(messageBlockIndex) - 1)
    {
      ghost var tail := messageBlock[..messageBlockIndex];
      messageBlock[messageBlockIndex] := 0x80;
      messageBlockIndex := messageBlockIndex + 1;
      assert messageBlock[..messageBlockIndex] == tail + [0x80];
      ZeroUpTo(end);
    }

    /** Pads out the block and processes it. */
    method PadBlock() returns (ghost whole: seq<byte>)
      requires Absorbing() && messageBlockIndex > 55
      modifies this`messageBlockIndex, H, messageBlock
      ensures messageBlockIndex == 0 && DigestOf(H[..]) == Fold(whole)
      ensures Pad(absorbed) == whole + (Zeros(56) + BigEndian(8 * |absorbed|, 8))
    {
      whole := absorbed[..64 * blocks];
      ghost var tail := absorbed[64 * blocks..];
      assert absorbed == whole + tail;
      PadAcrossBlocks(whole, blocks, tail);
      EndMessage(64);
      ghost var block := messageBlock[..];
      assert block == messageBlock[..64];
      FoldBlock(whole, block);
      whole := whole + block;
      ProcessMessageBlock();
    }

    /** Pads the block where it has room for the length field too. */
    method PadRest() returns (ghost whole: seq<byte>)
      requires Absorbing() && messageBlockIndex <= 55
      modifies this`messageBlockIndex, messageBlock
      ensures DigestOf(H[..]) == Fold(whole)
      ensures Pad(absorbed) == whole + (messageBlock[..56] + BigEndian(8 * |absorbed|, 8))
    {
      whole := absorbed[..64 * blocks];
      ghost var tail := absorbed[64 * blocks..];
      assert absorbed == whole + tail;
      PadInBlock(whole, blocks, tail);
      EndMessage(56);
    }

    /** Pad up to the length field, processing a block first if there is no room. whole is what has
        been processed, and last the block that the length field completes. */
    method PadToLength() returns (ghost whole: seq<byte>, ghost last: seq<byte>)
      requires Absorbing()
      modifies this`messageBlockIndex, H, messageBlock
      ensures DigestOf(H[..]) == Fold(whole) && Pad(absorbed) == whole + last
      ensures last == messageBlock[..56] + BigEndian(lengthLow + WORD32 * lengthHigh, 8)
    {
      ghost var n := 8 * |absorbed|;
      if messageBlockIndex > 55 {
        whole := PadBlock();
        ZeroUpTo(56);
        assert messageBlock[..56] == Zeros(56);
      } else {
        whole := PadRest();
      }
      assert lengthLow + WORD32 * lengthHigh == n;
      last := messageBlock[..56] + BigEndian(n, 8);
    }

    /** The last block, of which the length field is still to be stored. */
    method ProcessLast(ghost whole: seq<byte>, ghost last: seq<byte>)
      requires H.Length == 5 && messageBlock.Length == 64 && 0 <= lengthLow < WORD32 && 0 <= lengthHigh < WORD32
      requires DigestOf(H[..]) == Fold(whole)
      requires last == messageBlock[..56] + BigEndian(lengthLow + WORD32 * lengthHigh, 8)
      modifies this`messageBlockIndex, H, messageBlock
      ensures messageBlockIndex == 0 && DigestOf(H[..]) == Fold(whole + last)
    {
      StoreLength();
      FoldBlock(whole, messageBlock[..]);
      ProcessMessageBlock();
    }

    method PadMessage()
      requires Absorbing()
      modifies this`messageBlockIndex, H, messageBlock
      ensures messageBlockIndex == 0 && DigestOf(H[..]) == Sha1(absorbed)
    {
      ghost var whole, last := PadToLength();
      ProcessLast(whole, last);
    }

    /** Fills out with the digest; false, and nothing filled, for an object misused or overrun. */
    method Result(out: array<bv32>) returns (ok: bool)
      requires Valid() && out.Length == 5 && out != H
      modifies this, H, messageBlock, out
      ensures Valid() && absorbed == old(absorbed)
      ensures ok <==> !old(corrupted)
      ensures corrupted == old(corrupted) && (ok ==> computed)
      ensures ok ==> DigestOf(out[..]) == Sha1(absorbed)
      ensures !ok ==> out[..] == old(out[..])
    {
      if corrupted {
        return false;
      }
      if !computed {
        PadMessage();
        computed := true;
      }
      CopyRegisters(out);
      return true;
    }

    method CopyRegisters(out: array<bv32>)
      requires out.Length == 5 == H.Length && out != H
      modifies out
      ensures out[..] == H[..]
    {
      var i := 0;
      while i < 5
        invariant 0 <= i <= 5 && forall j :: 0 <= j < i ==> out[j] == H[j]
      {
        out[i] := H[i];
        i := i + 1;
      }
      assert out[..] == H[..];
    }
  }

  lemma DigestOfInjective(h: seq<bv32>, k: seq<bv32>)
    requires |h| == |k| == 5 && DigestOf(h) == DigestOf(k)
    ensures h == k
  {
    assert h == [h[0], h[1], h[2], h[3], h[4]] && k == [k[0], k[1], k[2], k[3], k[4]];
  }

  function Concat(pieces: seq<seq<byte>>): seq<byte>
  {
    if pieces == [] then [] else Concat(pieces[..|pieces| - 1]) + pieces[|pieces| - 1]
  }

  /** However a message is split into Input calls, the digest is that of the whole; asking for it
      twice changes nothing, and input after that spoils the object. */
  method DigestOfPieces(pieces: seq<seq<byte>>, more: seq<byte>)
    returns (ok: bool, digest: seq<bv32>, again: bool, repeated: seq<bv32>, late: bool)
    requires more != []
    ensures ok <==> 8 * |Concat(pieces)| < MAX_BITS
    ensures ok ==> |digest| == 5 && DigestOf(digest) == Sha1(Concat(pieces))
    ensures again == ok && repeated == digest && !late
  {
    var sha := new SHA1();
    for i := 0 to |pieces|
      invariant sha.Valid() && fresh(sha) && fresh(sha.H) && fresh(sha.messageBlock)
      invariant !sha.computed && (sha.corrupted <==> 8 * |Concat(pieces[..i])| >= MAX_BITS)
      invariant !sha.corrupted ==> sha.absorbed == Concat(pieces[..i])
    {
      assert pieces[..i + 1][..i] == pieces[..i];
      sha.Input(pieces[i]);
    }
    assert pieces[..|pieces|] == pieces;
    var out := new bv32[5];
    ok := sha.Result(out);
    digest := out[..];
    again := sha.Result(out);
    repeated := out[..];
    if ok { DigestOfInjective(digest, repeated); }
    sha.Input(more);
    late := sha.Result(out);
  }
}
