/** Writing the append only buffer to disk (aofWrite and flushAppendOnlyFile of aof.c), with short and
    failing writes, interrupted calls, and a truncation that may itself fail. */
module Flush {
  import opened Basics
  import opened Decimal

  datatype Policy = Never | EverySec | Always

  /** What write(2) answers. */
  datatype Answer = Wrote(n: nat) | Interrupted | Error

  /** How many of `len` bytes the calls accept before an error; a call beyond `answers` takes the rest. */
  function Accepted(len: nat, answers: seq<Answer>): (r: nat)
    ensures r <= len
    decreases |answers|
  {
    if len == 0 || answers == [] then len
    else
      match answers[0]
      case Interrupted => Accepted(len, answers[1..])
      case Error => 0
      case Wrote(n) => Min(n, len) + Accepted(len - Min(n, len), answers[1..])
  }

  predicate Fails(answers: seq<Answer>) { Error in answers }

  /** All that is written before the first error. */
  function Before(answers: seq<Answer>): nat {
    if answers == [] || answers[0].Error? then 0
    else (if answers[0].Wrote? then answers[0].n else 0) + Before(answers[1..])
  }

  /** Without an error everything is accepted, however often the calls are interrupted or short; with
      one, what was written before it, up to all of it. */
  lemma {:induction false} AcceptedExactly(len: nat, answers: seq<Answer>)
    ensures Accepted(len, answers) == if Fails(answers) then Min(len, Before(answers)) else len
    decreases |answers|
  {
    if answers != [] {
      var n := if answers[0].Wrote? then Min(answers[0].n, len) else 0;
      AcceptedExactly(len - n, answers[1..]);
      assert Fails(answers) == (answers[0].Error? || Fails(answers[1..]));
    }
  }

  /** aofWrite: retried until everything is out or a real error comes.  `answers` are the results of
      the successive calls. */
  method AofWrite(buf: Bytes, answers: seq<Answer>) returns (nwritten: int, out: Bytes)
    ensures var n := Accepted(|buf|, answers);
            out == buf[..n] && nwritten == if n == 0 && buf != [] then -1 else n
  {
    out := [];
    var rest, i := buf, 0;
    assert answers[0..] == answers;
    while |rest| > 0
      invariant 0 <= i <= |answers| && out + rest == buf
      invariant |out| + Accepted(|rest|, answers[i..]) == Accepted(|buf|, answers)
      decreases |answers| - i, |rest|
    {
      assert i < |answers| ==> answers[i..][1..] == answers[i + 1..];
      var a := if i < |answers| then answers[i] else Wrote(|rest|);
      if i < |answers| { i := i + 1; }
      if a.Interrupted? { continue; }
      if a.Error? { return if |out| > 0 then |out| else -1, out; }
      var n := Min(a.n, |rest|);
      Moved(out, rest, n);
      out, rest := out + rest[..n], rest[n..];
    }
    assert out == buf;
    nwritten := |out|;
  }

  lemma Moved(out: Bytes, rest: Bytes, n: nat)
    requires n <= |rest|
    ensures out + rest[..n] + rest[n..] == out + rest
  {
    assert rest == rest[..n] + rest[n..];
  }

  class AppendOnlyFile {
    var file: Bytes
    var buf: Bytes
    var currentSize: nat
    var lastWriteOk: bool
    var postponedStart: int
    var fsyncOffset: nat
    var lastFsync: int
    var exited: bool
    const policy: Policy
    ghost var fed: Bytes

    /** Everything fed is in the file or still in the buffer, in order, and the recorded size is the
        length of the file. */
    ghost predicate Valid()
      reads this
    {
      file + buf == fed && currentSize == |file| && fsyncOffset <= currentSize && !exited
    }

    constructor (policy: Policy, file: Bytes)
      ensures Valid() && this.policy == policy && this.file == file && buf == [] && fed == file
    {
      this.policy, this.file, buf, currentSize := policy, file, [], |file|;
      lastWriteOk, postponedStart, fsyncOffset, lastFsync, exited, fed := true, 0, 0, 0, false, file;
    }

    /** feedAppendOnlyFile appends to the buffer. */
    method Feed(s: Bytes)
      requires Valid()
      modifies `buf, `fed
      ensures Valid() && buf == old(buf) + s && fed == old(fed) + s
    {
      assert file + (buf + s) == file + buf + s;
      buf := buf + s;
      fed := fed + s;
    }

    /** The end of flushAppendOnlyFile. */
    method TryFsync(now: int, syncing: bool, noFsyncNow: bool)
      requires Valid()
      modifies `fsyncOffset, `lastFsync
      ensures Valid()
      ensures var due := !noFsyncNow && (policy.Always? || (policy.EverySec? && now > old(lastFsync)));
              lastFsync == (if due then now else old(lastFsync)) &&
              fsyncOffset == if due && (policy.Always? || !syncing) then |file| else old(fsyncOffset)
    {
      if noFsyncNow { return; }
      if policy.Always? {
        fsyncOffset, lastFsync := currentSize, now;
      } else if policy.EverySec? && now > lastFsync {
        if !syncing { fsyncOffset := currentSize; }
        lastFsync := now;
      }
    }

    /** A flush is put off while a background fsync is running, for less than two seconds. */
    predicate PutsOff(force: bool, now: int, syncing: bool)
      reads this
    {
      policy.EverySec? && !force && syncing && (postponedStart == 0 || now - postponedStart < 2)
    }

    /** Only a running sync under "everysec" puts a flush off, never one that is forced, and from the first
        time on for less than two seconds. */
    lemma PutOffExactly(force: bool, now: int, syncing: bool)
      ensures policy != EverySec || force || !syncing ==> !PutsOff(force, now, syncing)
      ensures policy == EverySec && !force && syncing && postponedStart == 0 ==> PutsOff(force, now, syncing)
      ensures policy == EverySec && !force && syncing && postponedStart != 0 ==>
                (PutsOff(force, now, syncing) <==> now <= postponedStart + 1)
    {}

    method Postpone(force: bool, now: int, syncing: bool) returns (later: bool)
      modifies `postponedStart
      ensures later == old(PutsOff(force, now, syncing))
      ensures postponedStart == if later && old(postponedStart) == 0 then now else old(postponedStart)
    {
      later := false;
      if policy.EverySec? && !force {
        if syncing {
          if postponedStart == 0 {
            postponedStart := now;
            return true;
          } else if now - postponedStart < 2 {
            return true;
          }
        }
      }
    }

    /** What a sync does to offset and time: at once under "always", once a second under "everysec",
        where the offset moves only if no sync is running. */
    predicate Synced(due: bool, now: int, offset: nat, time: int, syncing: bool)
      reads this
    {
      && lastFsync == (if due then now else time)
      && fsyncOffset == (if due && (policy.Always? || !syncing) then |file| else offset)
    }

    /** flushAppendOnlyFile: nothing fed is lost or written twice, whatever the system calls answer;
        only with the "always" policy does a failure end the server.  A flush that is not put off and
        meets no error empties the buffer and syncs as the policy says; one that fails leaves a file that
        ends where it did before if the short write could be undone, and syncs nothing. */
    method FlushAppendOnlyFile(force: bool, now: int, syncing: bool, answers: seq<Answer>, truncates: bool,
                               noFsyncNow: bool)
      requires Valid()
      modifies this
      ensures fed == old(fed) && old(file) <= file <= fed && (!exited ==> Valid())
      ensures old(buf) == [] ==>
                && file == old(file) && buf == [] && lastWriteOk == old(lastWriteOk) && !exited
                && postponedStart == old(postponedStart)
                && var due := policy.EverySec? && !noFsyncNow && !syncing &&
                              old(fsyncOffset) != |file| && now > old(lastFsync);
                   Synced(due, now, old(fsyncOffset), old(lastFsync), syncing)
      ensures old(buf) != [] && old(PutsOff(force, now, syncing)) ==>
                && file == old(file) && buf == old(buf) && lastWriteOk == old(lastWriteOk) && !exited
                && postponedStart == (if old(postponedStart) == 0 then now else old(postponedStart))
                && Synced(false, now, old(fsyncOffset), old(lastFsync), syncing)
      ensures old(buf) != [] && !old(PutsOff(force, now, syncing)) ==>
                var n := Accepted(|old(buf)|, answers);
                && postponedStart == 0
                && if n == |old(buf)| then
                     && file == old(file) + old(buf) && buf == [] && lastWriteOk && !exited
                     && var due := !noFsyncNow && (policy.Always? || (policy.EverySec? && now > old(lastFsync)));
                        Synced(due, now, old(fsyncOffset), old(lastFsync), syncing)
                   else
                     var kept := if truncates then 0 else n;
                     && file == old(file) + old(buf)[..kept] && exited == policy.Always?
                     && (!exited ==> buf == old(buf)[kept..] && !lastWriteOk)
                     && fsyncOffset == old(fsyncOffset) && lastFsync == old(lastFsync)
    {
      if |buf| == 0 {
        if policy.EverySec? && fsyncOffset != currentSize && now > lastFsync && !syncing {
          TryFsync(now, syncing, noFsyncNow);
        }
        return;
      }
      var later := Postpone(force, now, syncing);
      if later { return; }
      var nwritten, out := AofWrite(buf, answers);
      assert buf == out + buf[|out|..] && file + buf == file + out + buf[|out|..];
      postponedStart := 0;
      if nwritten != |buf| {
        if nwritten != -1 && truncates {
          nwritten := -1;       // the partial write is cut off again
        } else {
          file := file + out;
        }
        if policy.Always? {
          exited := true;
          return;
        }
        lastWriteOk := false;
        if nwritten > 0 {
          currentSize := currentSize + nwritten;
          buf := buf[nwritten..];
        }
        return;
      }
      file := file + out;
      lastWriteOk := true;
      currentSize := currentSize + nwritten;
      buf := [];
      TryFsync(now, syncing, noFsyncNow);
    }
  }
}
