/** The rewrite buffer of aof.c: the bytes fed since a rewrite began, kept in a list of
    fixed-size blocks and handed to the child piece by piece. */
module RewriteBuffer {
  import opened Basics
  import opened Decimal
  import opened Framing

  /** A block: its used bytes and the room left. */
  datatype Block = Block(data: Bytes, free: nat)

  function Data(b: Block): Bytes { b.data }

  function Joined(blocks: seq<Block>): Bytes { Flat(Data, blocks) }

  predicate Sized(blocks: seq<Block>, size: nat) {
    forall i | 0 <= i < |blocks| :: |blocks[i].data| + blocks[i].free == size
  }

  /** `now` is `before` with its last block filled up and blocks added that hold something, all of them
      full but the last; `more` says that the last may still be empty. */
  predicate Extends(before: seq<Block>, now: seq<Block>, more: bool) {
    && |before| <= |now|
    && (forall i | 0 <= i < |before| - 1 :: now[i] == before[i])
    && (before != [] ==> before[|before| - 1].data <= now[|before| - 1].data)
    && (forall i | |before| - 1 <= i < |now| - 1 && 0 <= i :: now[i].free == 0)
    && (forall i | |before| <= i < |now| :: now[i].data != [] || (more && i == |now| - 1))
  }

  lemma ExtendsNothing(blocks: seq<Block>)
    ensures Extends(blocks, blocks, true) && Extends(blocks, blocks, false)
  {}

  lemma {:induction false} Filled(before: seq<Block>, init: seq<Block>, last: Block, data: Bytes, len: nat)
    requires Extends(before, init + [last], true) && |data| == len <= last.free && len > 0
    ensures var now := init + [Block(last.data + data, last.free - len)];
            Extends(before, now, true) && Extends(before, now, false)
  {
    var old', now := init + [last], init + [Block(last.data + data, last.free - len)];
    assert forall i | 0 <= i < |init| :: now[i] == old'[i];
    assert now[|init|].data != [] && last.data <= now[|init|].data;
    if before != [] && |before| == |now| {
      assert before[|before| - 1].data <= last.data;
    }
  }

  lemma {:induction false} Grown(before: seq<Block>, blocks: seq<Block>, b: Block)
    requires Extends(before, blocks, true)
    requires blocks != [] ==> blocks[|blocks| - 1].free == 0 && blocks[|blocks| - 1].data != []
    ensures Extends(before, blocks + [b], true)
  {}

  /** What a write of `len` bytes may answer: an error, nothing, or part of it. */
  function Written(answer: int, len: nat): (n: int)
    ensures n <= len
  {
    if answer > len then len else answer
  }

  lemma {:induction false} JoinedTail(blocks: seq<Block>, b: Block)
    ensures Joined(blocks + [b]) == Joined(blocks) + b.data
  {
    FlatSnoc(Data, blocks, b);
  }

  lemma {:induction false} JoinedHead(b: Block, blocks: seq<Block>)
    ensures Joined([b] + blocks) == b.data + Joined(blocks)
  {
    assert ([b] + blocks)[1..] == blocks;
  }

  lemma Move(before: Bytes, data: Bytes, n: nat, rest: Bytes, all: Bytes)
    requires n <= |data| && before + (data + rest) == all
    ensures before + data[..n] + (data[n..] + rest) == all
  {
    assert data == data[..n] + data[n..];
    assert before + data[..n] + (data[n..] + rest) == before + (data + rest);
  }

  /** How many bytes the writes from `calls` on accept, block after block and each block until it is
      out, before one accepts nothing. */
  function Sent(blocks: seq<Block>, answers: nat -> int, calls: nat): nat
    decreases |blocks|, if blocks == [] then 0 else |blocks[0].data|
  {
    if blocks == [] then 0
    else
      var b := blocks[0];
      if b.data == [] then Sent(blocks[1..], answers, calls)
      else
        var n := Written(answers(calls), |b.data|);
        if n <= 0 then 0
        else n + Sent([Block(b.data[n..], b.free + n)] + blocks[1..], answers, calls + 1)
  }

  /** If every write accepts something, everything is sent, however little at a time. */
  lemma {:induction false} AllIsSent(blocks: seq<Block>, answers: nat -> int, calls: nat)
    requires forall k: nat | k >= calls :: answers(k) > 0
    ensures Sent(blocks, answers, calls) == |Joined(blocks)|
    decreases |blocks|, if blocks == [] then 0 else |blocks[0].data|
  {
    if blocks != [] {
      var b, rest := blocks[0], blocks[1..];
      assert blocks == [b] + rest;
      JoinedHead(b, rest);
      if b.data == [] {
        AllIsSent(rest, answers, calls);
      } else {
        var n := Written(answers(calls), |b.data|);
        var c := Block(b.data[n..], b.free + n);
        JoinedHead(c, rest);
        AllIsSent([c] + rest, answers, calls + 1);
      }
    }
  }

  /** The first write that accepts nothing ends it: what was sent before it is what one write accepted
      if the second fails, and nothing if the first does. */
  lemma {:induction false} FailureEndsIt(b: Block, rest: seq<Block>, answers: nat -> int)
    requires b.data != []
    ensures answers(0) <= 0 ==> Sent([b] + rest, answers, 0) == 0
    ensures 0 < answers(0) < |b.data| && answers(1) <= 0 ==> Sent([b] + rest, answers, 0) == answers(0)
  {
    var blocks := [b] + rest;
    assert blocks[1..] == rest;
    if 0 < answers(0) < |b.data| && answers(1) <= 0 {
      var c := Block(b.data[answers(0)..], b.free + answers(0));
      var left := [c] + rest;
      assert left[0] == c;
      assert Sent(left, answers, 1) == 0;
    }
  }

  class Buffer {
    const size: nat
    var blocks: seq<Block>
    var stopSending: bool
    var installed: bool

    ghost predicate Valid()
      reads this
    {
      size > 0 && Sized(blocks, size)
    }

    ghost function Contents(): Bytes
      reads this
    {
      Joined(blocks)
    }

    /** aofCreatePipes and aofRewriteBufferReset: nothing buffered, sending allowed. */
    constructor (size: nat)
      requires size > 0
      ensures Valid() && this.size == size && blocks == [] && !stopSending && !installed
    {
      this.size := size;
      blocks, stopSending, installed := [], false, false;
    }

    /** aofRewriteBufferSize. */
    method Size() returns (total: nat)
      requires Valid()
      ensures total == |Contents()|
    {
      total := 0;
      for i := 0 to |blocks|
        invariant total == |Joined(blocks[..i])|
      {
        assert blocks[..i + 1] == blocks[..i] + [blocks[i]];
        JoinedTail(blocks[..i], blocks[i]);
        total := total + |blocks[i].data|;
      }
      assert blocks[..|blocks|] == blocks;
    }

    /** Part of `rest` goes to the last block, as much as it has room for. */
    method FillLast(rest: Bytes, ghost start: seq<Block>) returns (left: Bytes)
      requires Valid() && rest != [] && Extends(start, blocks, true)
      modifies `blocks
      ensures Valid() && Contents() + left == old(Contents()) + rest
      ensures Extends(start, blocks, left != []) && |left| <= |rest|
      ensures old(blocks) != [] && old(blocks)[|old(blocks)| - 1].free > 0 ==> |left| < |rest|
      ensures left != [] ==> Extends(start, blocks, true)
      ensures left != [] && blocks != [] ==> blocks[|blocks| - 1].free == 0
    {
      hide Flat, Joined, Extends;
      left := rest;
      if |blocks| > 0 {
        var init, last := blocks[..|blocks| - 1], blocks[|blocks| - 1];
        assert blocks == init + [last];
        var len := Min(last.free, |rest|);
        if len > 0 {
          JoinedTail(init, last);
          JoinedTail(init, Block(last.data + rest[..len], last.free - len));
          Copied(Joined(init), last.data, rest, len);
          Filled(start, init, last, rest[..len], len);
          blocks := init + [Block(last.data + rest[..len], last.free - len)];
          left := rest[len..];
        }
      }
    }

    /** aofRewriteBufferAppend: fill the last block, then as many new ones as it takes. */
    method Append(s: Bytes)
      requires Valid()
      modifies `blocks, `installed
      ensures Valid() && Contents() == old(Contents()) + s && installed
      ensures Extends(old(blocks), blocks, false)
    {
      hide Flat, Joined, Extends;
      var rest := s;
      assert rest + [] == rest;
      ExtendsNothing(blocks);
      while rest != []
        invariant Valid() && Joined(blocks) + rest == old(Joined(blocks)) + s
        invariant Extends(old(blocks), blocks, rest != [])
        decreases |rest|, if |blocks| > 0 && blocks[|blocks| - 1].free > 0 then 0 else 1
      {
        rest := FillLast(rest, old(blocks));
        if rest != [] {
          JoinedTail(blocks, Block([], size));
          Grown(old(blocks), blocks, Block([], size));
          assert Joined(blocks) + [] == Joined(blocks);
          blocks := blocks + [Block([], size)];
        }
      }
      installed := true;
    }

    /** aofChildWriteDiffData; `answers` are the results of the successive writes, `sent` is what
        reached the pipe.  The handler is removed when told to stop or when nothing is left. */
    method ChildWriteDiffData(answers: nat -> int) returns (sent: Bytes)
      requires Valid()
      modifies `blocks, `installed
      ensures Valid() && sent + Contents() == old(Contents())
      ensures |sent| == if stopSending then 0 else Sent(old(blocks), answers, 0)
      ensures installed == (old(installed) && !stopSending && blocks != [])
    {
      hide Flat, Joined;
      sent := [];
      var calls := 0;
      while true
        invariant Valid() && sent + Joined(blocks) == old(Joined(blocks)) && installed == old(installed)
        invariant if stopSending then sent == []
                  else |sent| + Sent(blocks, answers, calls) == Sent(old(blocks), answers, 0)
        decreases |Joined(blocks)| + |blocks|
      {
        if stopSending || blocks == [] {
          installed := false;
          return;
        }
        var b, rest := blocks[0], blocks[1..];
        assert blocks == [b] + rest;
        JoinedHead(b, rest);
        if |b.data| > 0 {
          var n := Written(answers(calls), |b.data|);
          calls := calls + 1;
          if n <= 0 { return; }
          Move(sent, b.data, n, Joined(rest), old(Joined(blocks)));
          sent := sent + b.data[..n];
          b := Block(b.data[n..], b.free + n);
          blocks := [b] + rest;
          assert blocks[1..] == rest;
          JoinedHead(b, rest);
        }
        if |b.data| == 0 {
          assert b.data + Joined(rest) == Joined(rest);
          blocks := rest;
        }
      }
    }

    /** aofRewriteBufferWrite: all of it reaches the file, or -1. */
    method Write(answers: nat -> int) returns (count: int, out: Bytes)
      requires Valid()
      ensures out <= Contents()
      ensures if count == -1 then out != Contents() else out == Contents() && count == |out|
      ensures count == -1 <==> exists i :: 0 <= i < |blocks| && blocks[i].data != [] && answers(i) < |blocks[i].data|
    {
      hide Flat, Joined;
      count, out := 0, [];
      assert blocks[0..] == blocks;
      for i := 0 to |blocks|
        invariant count == |out| && out + Joined(blocks[i..]) == Joined(blocks)
        invariant forall k | 0 <= k < i && blocks[k].data != [] :: answers(k) >= |blocks[k].data|
      {
        var b := blocks[i];
        ghost var rest := blocks[i + 1..];
        assert blocks[i..] == [b] + rest;
        JoinedHead(b, rest);
        if |b.data| > 0 {
          var n := Written(answers(i), |b.data|);
          var k := if n < 0 then 0 else n;
          Move(out, b.data, k, Joined(rest), Joined(blocks));
          out := out + b.data[..k];
          if n != |b.data| { return -1, out; }
          assert b.data[k..] + Joined(rest) == Joined(rest);
          count := count + n;
        }
      }
      NothingJoined(blocks[|blocks|..]);
    }

    /** aofChildPipeReadable: the child asks to stop by sending an exclamation mark. */
    method ChildPipeReadable(byte: Option<Byte>)
      modifies `stopSending
      ensures stopSending == (old(stopSending) || byte == Some(33))
    {
      if byte == Some(33) { stopSending := true; }
    }
  }

  lemma Copied(init: Bytes, data: Bytes, rest: Bytes, len: nat)
    requires len <= |rest|
    ensures init + (data + rest[..len]) + rest[len..] == init + data + rest
  {
    assert rest == rest[..len] + rest[len..];
  }

  lemma NothingJoined(none: seq<Block>)
    requires none == []
    ensures Joined(none) == []
  {}
}
