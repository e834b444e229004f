/** The parent's side of aof.c as it updates the server state: feeding, sending differences to
    the child, and the switch to the rewritten file.  `View` shows the object as the record the
    rewrite protocol is stated over. */
module AofServer {
  import opened Basics
  import opened Decimal
  import opened Resp
  import opened CommandLog
  import opened Dataset
  import opened Live
  import P = Propagation
  import B = RewriteBuffer
  import H = Handshake

  function Tracked(selected: int): Option<nat> { if selected < 0 then None else Some(selected) }

  class Aof {
    var state: H.AofState
    var file: Bytes
    var buf: Bytes
    var rewriting: bool
    var selected: int
    const buffer: B.Buffer

    ghost predicate Valid()
      reads this, buffer
    {
      buffer.Valid() && (!rewriting ==> buffer.blocks == [])
    }

    ghost function View(): H.Parent
      reads this, buffer
    {
      H.Parent(state, file, buf, rewriting, buffer.Contents(), buffer.stopSending)
    }

    constructor (size: nat, file: Bytes, state: H.AofState)
      requires size > 0
      ensures Valid() && fresh(buffer) && View() == H.Parent(state, file, [], false, [], false) && selected == -1
    {
      this.state, this.file, buf, rewriting, selected := state, file, [], false, -1;
      buffer := new B.Buffer(size);
    }

    /** feedAppendOnlyFile.  `ok` is false where the source's assertion would stop the server. */
    method Feed(id: nat, argv: Command, now: Long) returns (ok: bool)
      requires Valid() && P.Executed(argv)
      modifies this, buffer
      ensures Valid() && selected == id
      ensures var log := P.FeedOne(Tracked(old(selected)), id, argv, now);
              ok == log.Some? &&
              View() == if ok then H.ParentFeed(old(View()), EmitLog(log.value)) else old(View())
    {
      hide P.FeedOne, EmitLog, P.Executed;
      var bytes;
      ok, selected, bytes := P.FeedAppendOnlyFile(selected, id, argv, now);
      if ok {
        if state.On? { buf := buf + bytes; }
        if rewriting { buffer.Append(bytes); }
      }
    }

    /** rewriteAppendOnlyFileBackground, after a successful fork. */
    method StartRewrite()
      requires Valid() && !rewriting
      modifies this, buffer
      ensures Valid() && View() == H.ParentFork(old(View())) && selected == -1
    {
      buffer.stopSending := false;
      rewriting, selected := true, -1;
    }

    /** aofChildWriteDiffData: what is sent is a prefix of what was buffered. */
    method SendDiff(answers: nat -> int) returns (sent: Bytes)
      requires Valid() && rewriting
      modifies buffer
      ensures Valid() && sent <= old(View()).blocks && View() == H.ParentSend(old(View()), |sent|)
      ensures |sent| == if buffer.stopSending then 0 else B.Sent(old(buffer.blocks), answers, 0)
    {
      sent := buffer.ChildWriteDiffData(answers);
    }

    /** aofChildPipeReadable: after the child's byte nothing more is sent. */
    method HearStop(byte: Option<Byte>)
      requires Valid()
      modifies buffer
      ensures Valid() && View() == if byte == Some(33) then H.ParentHear(old(View())) else old(View())
    {
      buffer.ChildPipeReadable(byte);
    }

    /** backgroundRewriteDoneHandler: `exited` tells whether the child ended well, `answers` what
        the writes of the buffer to its file return. */
    method RewriteDone(exited: bool, tmp: Bytes, found: bool, answers: nat -> int, renamed: bool)
        returns (success: bool, ghost written: nat)
      requires Valid() && rewriting
      modifies this, buffer
      ensures Valid() && !rewriting && written <= |old(View()).blocks|
      ensures success == H.Succeeds(old(View()), exited, found, written, renamed)
      ensures View() == H.ParentDone(old(View()), tmp, success)
      ensures selected == if success then -1 else old(selected)
    {
      success, written := false, 0;
      if exited {
        if found {
          var count, out := buffer.Write(answers);
          written := |out|;
          if count != -1 {
            if renamed {
              file := tmp + out;
              selected, buf := -1, [];
              state := H.On;
              success := true;
            }
          } else {
            Shorter(out, buffer.Contents());
          }
        } else { written := 0; }
      }
      buffer.blocks := [];
      rewriting := false;
    }
  }

  lemma Shorter(a: Bytes, b: Bytes)
    requires a <= b && a != b
    ensures |a| < |b|
  {}
}
