/** The NVMe driver's queue pair (kernel/nvme.c; section 4.6 of the NVM Express Base Specification 1.4): phase tags tell
    new completions from old ones, and transfers move exactly the blocks asked for. */
module NvmeQueues {
  import opened Hardware

  const ENTRIES := 32

  datatype Opcode = Read | Write

  /** A submission entry: the starting block is split over two words, the block count is stored minus one. */
  datatype Command = Command(id: nat, opcode: Opcode, lba: nat, blocks: nat)

  /** A completion entry: the phase tag, the command it belongs to and its status code, 0 for success. */
  datatype Completion = Completion(tag: int, id: nat, status: nat)

  // ---------------------------------------------------------------- phase tags and identifiers

  /** The phase tag of the n-th completion: 1 on the first lap around the ring, then alternating. */
  function TagOf(n: nat): int { if n / ENTRIES % 2 == 0 then 1 else 0 }

  /** The identifier of the n-th command: counted up from 1 in 16 bits, skipping 0. */
  function IdOf(n: nat): nat { n % 65535 + 1 }

  /** The last of the first `n` completions that went to `slot`; -1 when none did. */
  function LastIn(n: nat, slot: int): int
    requires 0 <= slot < ENTRIES
  {
    if slot >= n then -1 else slot + (n - 1 - slot) / ENTRIES * ENTRIES
  }

  lemma LastIsBefore(n: nat, slot: int)
    requires 0 <= slot < ENTRIES
    ensures -1 <= LastIn(n, slot) < n && (LastIn(n, slot) >= 0 ==> LastIn(n, slot) % ENTRIES == slot)
  {}

  lemma LastNext(n: nat, slot: int)
    requires 0 <= slot < ENTRIES
    ensures LastIn(n + 1, slot) == if slot == n % ENTRIES then n else LastIn(n, slot)
  {}

  /** The slot the host looks at holds the next completion exactly if one has been posted since. */
  lemma HeadSlot(n: nat, c: nat)
    requires c <= n < c + ENTRIES
    ensures LastIn(n, c % ENTRIES) == if n > c then c else if c >= ENTRIES then c - ENTRIES else -1
  {}

  lemma TagFlips(n: nat)
    ensures n >= ENTRIES ==> TagOf(n - ENTRIES) != TagOf(n)
    ensures n < ENTRIES ==> TagOf(n) == 1
  {}

  lemma TagNext(n: nat)
    ensures TagOf(n + 1) == if (n + 1) % ENTRIES == 0 then 1 - TagOf(n) else TagOf(n)
  {}

  /** Two commands share an identifier exactly if a multiple of 65535 commands lies between them. */
  lemma SameId(a: nat, b: nat)
    requires a <= b
    ensures IdOf(a) == IdOf(b) <==> (b - a) % 65535 == 0
  {}

  // ---------------------------------------------------------------- the device

  /** Bytes in `n` blocks: the product, written as a sum. */
  function Size(bs: nat, n: nat): nat { if n == 0 then 0 else bs + Size(bs, n - 1) }

  lemma {:induction false} SizeAdds(bs: nat, a: nat, b: nat)
    ensures Size(bs, a + b) == Size(bs, a) + Size(bs, b)
  {
    if b > 0 { SizeAdds(bs, a, b - 1); }
  }

  lemma {:induction false} SizeTimes(bs: nat, n: nat)
    ensures Size(bs, n) == bs * n
  {
    if n > 0 { SizeTimes(bs, n - 1); }
  }

  /** What a command does to the disk and to the data page. */
  datatype Media = Media(disk: seq<Byte>, page: Page)

  /** The command lies on the disk and fits the data page. */
  predicate Doable(m: Media, bs: nat, c: Command) {
    Size(bs, c.lba) + Size(bs, c.blocks) <= |m.disk| && Size(bs, c.blocks) <= 4096
  }

  function Executed(m: Media, bs: nat, c: Command): (m': Media)
    ensures |m'.disk| == |m.disk|
  {
    var from, size := Size(bs, c.lba), Size(bs, c.blocks);
    if !Doable(m, bs, c) then m
    else match c.opcode
      case Read => m.(page := m.disk[from..from + size] + m.page[size..])
      case Write => m.(disk := m.disk[..from] + m.page[..size] + m.disk[from + size..])
  }

  predicate Extends(log: seq<Completion>, log': seq<Completion>) { |log| <= |log'| && log'[..|log|] == log }

  lemma ExtendsOn(a: seq<Completion>, b: seq<Completion>, c: seq<Completion>)
    requires Extends(a, b) && Extends(b, c)
    ensures Extends(a, c)
  {}

  /** What happens before one poll: the device may post its next completion, failing the command or not, and may
      report a fatal error. */
  datatype Poll = Poll(post: bool, fail: bool, fatal: bool)

  /** The ring entry of one slot is the last completion that went there; a slot never written has tag 0. */
  ghost predicate SlotOk(ring: seq<Completion>, log: seq<Completion>, slot: int)
    requires |ring| == ENTRIES && 0 <= slot < ENTRIES
  {
    var i := LastIn(|log|, slot);
    if 0 <= i < |log| then ring[slot] == log[i] else ring[slot].tag == 0
  }

  ghost predicate RingOk(ring: seq<Completion>, log: seq<Completion>) {
    && |ring| == ENTRIES
    && (forall slot {:trigger SlotOk(ring, log, slot)} :: 0 <= slot < ENTRIES ==> SlotOk(ring, log, slot))
  }

  /** Every completion carries the device's tag and the identifier of its command. */
  ghost predicate LogOk(log: seq<Completion>) {
    forall i :: 0 <= i < |log| ==> log[i].tag == TagOf(i) && log[i].id == IdOf(i)
  }

  ghost predicate SentOk(sent: seq<Command>) { forall i :: 0 <= i < |sent| ==> sent[i].id == IdOf(i) }

  /** The host's indices follow the counts of commands sent and completions taken. */
  ghost predicate HostOk(tail: nat, head: nat, nextId: nat, phase: int, sent: nat, taken: nat) {
    && tail == sent % ENTRIES && head == taken % ENTRIES && phase == TagOf(taken)
    && nextId == if sent == 0 then 0 else IdOf(sent - 1)
  }

  /** A stale completion is never taken for a new one: the entry the host polls carries the expected tag exactly when a
      completion has been posted that the host has not taken, and then it is the oldest such completion. */
  lemma PolledEntry(ring: seq<Completion>, log: seq<Completion>, taken: nat)
    requires RingOk(ring, log) && LogOk(log) && taken <= |log| < taken + ENTRIES
    ensures ring[taken % ENTRIES].tag == TagOf(taken) <==> |log| > taken
    ensures |log| > taken ==> ring[taken % ENTRIES] == log[taken]
  {
    HeadSlot(|log|, taken);
    TagFlips(taken);
    assert SlotOk(ring, log, taken % ENTRIES);
  }

  lemma RingPost(ring: seq<Completion>, log: seq<Completion>, done: Completion)
    requires RingOk(ring, log)
    ensures RingOk(ring[|log| % ENTRIES := done], log + [done])
  {
    var ring', log' := ring[|log| % ENTRIES := done], log + [done];
    forall slot | 0 <= slot < ENTRIES ensures SlotOk(ring', log', slot) {
      assert SlotOk(ring, log, slot);
      LastNext(|log|, slot);
      LastIsBefore(|log|, slot);
    }
  }

  /** The identifier after the n-th. */
  lemma IdNext(n: nat)
    ensures IdOf(n) == if n == 0 then 1 else if IdOf(n - 1) == 65535 then 1 else IdOf(n - 1) + 1
  {}

  lemma SlotNext(n: nat)
    ensures (n % ENTRIES + 1) % ENTRIES == (n + 1) % ENTRIES
  {}

  lemma HostSends(tail: nat, head: nat, nextId: nat, phase: int, sent: nat, taken: nat, id: nat)
    requires HostOk(tail, head, nextId, phase, sent, taken) && id == if (nextId + 1) % 65536 == 0 then 1
                                                                     else (nextId + 1) % 65536
    ensures id == IdOf(sent) && HostOk((tail + 1) % ENTRIES, head, id, phase, sent + 1, taken)
  {
    IdNext(sent);
    SlotNext(sent);
    assert 0 <= nextId <= 65535;
    assert id == if nextId == 65535 then 1 else nextId + 1;
  }

  lemma HostTakes(tail: nat, head: nat, nextId: nat, phase: int, sent: nat, taken: nat, head': nat)
    requires HostOk(tail, head, nextId, phase, sent, taken) && head' == (head + 1) % ENTRIES
    ensures HostOk(tail, head', nextId, if head' == 0 then 1 - phase else phase, sent, taken + 1)
  {
    TagNext(taken);
  }

  class Controller {
    const blockSize: nat
    const sq: array<Command>
    const cq: array<Completion>
    var tail: nat
    var head: nat
    var nextId: nat
    var phase: int
    var media: Media

    /** The device's side: all commands it was told of, all completions it posted, and how many of them the host has
        acknowledged. */
    var sent: seq<Command>
    var log: seq<Completion>
    var taken: nat

    ghost predicate Valid()
      reads this, sq, cq
    {
      && sq.Length == ENTRIES && cq.Length == ENTRIES && 0 < blockSize <= 4096
      && taken <= |log| < taken + ENTRIES && |log| <= |sent|
      && HostOk(tail, head, nextId, phase, |sent|, taken)
      && SentOk(sent) && LogOk(log) && RingOk(cq[..], log)
    }

    /** No command is outstanding. */
    ghost predicate Idle()
      reads this
    {
      taken == |log| == |sent|
    }

    /** So many commands are outstanding that no identifier can match. */
    ghost predicate Blocked()
      reads this
    {
      (|sent| - taken) % 65535 != 0
    }

    constructor (bs: nat, media: Media)
      requires 0 < bs <= 4096
      ensures Valid() && Idle() && blockSize == bs && this.media == media && fresh(sq) && fresh(cq)
    {
      blockSize, this.media := bs, media;
      sq := new Command[ENTRIES](_ => Command(0, Read, 0, 0));
      cq := new Completion[ENTRIES](_ => Completion(0, 0, 0));
      tail, head, nextId, phase := 0, 0, 0, 1;
      sent, log, taken := [], [], 0;
    }

    /** The device completes its oldest unfinished command, if there is one and the ring has room. */
    method Post(fail: bool)
      requires Valid()
      modifies `media, `log, cq
      ensures Valid()
      ensures var n := |old(log)|;
              if n < |sent| && n + 1 < taken + ENTRIES then
                var good := !fail && Doable(old(media), blockSize, sent[n]);
                && |log| == n + 1 && log[..n] == old(log) && (log[n].status == 0 <==> good)
                && media == if good then Executed(old(media), blockSize, sent[n]) else old(media)
              else log == old(log) && media == old(media)
    {
      var n := |log|;
      if n >= |sent| || n + 1 >= taken + ENTRIES { return; }
      var good := !fail && Doable(media, blockSize, sent[n]);
      if good { media := Executed(media, blockSize, sent[n]); }
      var done := Completion(TagOf(n), sent[n].id, if good then 0 else 1);
      RingPost(cq[..], log, done);
      ghost var ring := cq[..];
      cq[n % ENTRIES] := done;
      assert cq[..] == ring[n % ENTRIES := done];
      log := log + [done];
    }

    /** Write a command to the submission ring and ring the doorbell. */
    method Send(opcode: Opcode, lba: nat, blocks: nat) returns (id: nat)
      requires Valid()
      modifies `nextId, `tail, `sent, sq
      ensures Valid() && sent == old(sent) + [Command(id, opcode, lba, blocks)] && id == IdOf(|old(sent)|)
    {
      id := (nextId + 1) % 65536;
      if id == 0 { id := 1; }
      HostSends(tail, head, nextId, phase, |sent|, taken, id);
      nextId := id;
      var c := Command(id, opcode, lba, blocks);
      sq[tail] := c;
      sent := sent + [c];
      tail := (tail + 1) % ENTRIES;
    }

    // Take the completion at the head of the ring.
    method Take() returns (c: Completion)
      requires Valid() && |log| > taken
      modifies `head, `phase, `taken
      ensures Valid() && taken == old(taken) + 1 && c == log[old(taken)]
    {
      PolledEntry(cq[..], log, taken);
      c := cq[head];
      var next := (head + 1) % ENTRIES;
      HostTakes(tail, head, nextId, phase, |sent|, taken, next);
      head := next;
      if next == 0 { phase := 1 - phase; }
      taken := taken + 1;
    }

    // One look at the completion ring: 1 for nothing new, else the result of the call.
    method Look(id: nat) returns (code: int)
      requires Valid()
      modifies `head, `phase, `taken
      ensures Valid()
      ensures |log| == old(taken) ==> code == 1 && taken == old(taken)
      ensures |log| > old(taken) && log[old(taken)].id != id ==> code == -1 && taken == old(taken)
      ensures |log| > old(taken) && log[old(taken)].id == id ==>
                taken == old(taken) + 1 && code == if log[old(taken)].status == 0 then 0 else -1
    {
      PolledEntry(cq[..], log, taken);
      var entry := cq[head];
      if entry.tag != phase { return 1; }
      if entry.id != id { return -1; }
      var done := Take();
      return if done.status == 0 then 0 else -1;
    }

    /** Submit a command and poll for its completion. On an idle queue the result is decided by the device's first
        answer, success means the command was carried out, failure means it was not carried out so far, and the queue is
        idle again exactly if the device answered, with the command's own status. When earlier commands are still
        outstanding the call fails, unless their number is a multiple of 65535. */
    method Submit(opcode: Opcode, lba: nat, blocks: nat, polls: seq<Poll>) returns (code: int)
      requires Valid()
      modifies `media, `log, `nextId, `tail, `sent, `head, `phase, `taken, sq, cq
      ensures Valid() && (code == 0 || code == -1)
      ensures var c := Command(IdOf(|old(sent)|), opcode, lba, blocks);
              old(Idle()) ==> && code == FirstAnswer(polls, Doable(old(media), blockSize, c))
                              && (code == 0 ==>
                                Idle() && media == Executed(old(media), blockSize, c)
                                && Doable(old(media), blockSize, c))
                              && (code != 0 ==> media == old(media))
      ensures old(Idle()) ==> (Idle() <==> Answered(polls))
      ensures |sent| == |old(sent)| + 1 && (old(Idle()) && !Answered(polls) ==> taken == old(taken))
      ensures old(Idle()) && Answered(polls) ==>
                |log| == |old(sent)| + 1 && (code == 0 <==> log[|old(sent)|].status == 0)
      ensures Extends(old(log), log)
      ensures old(Blocked()) ==> code == -1 && taken == old(taken)
    {
      ghost var k, idle := |sent|, Idle();
      var id := Send(opcode, lba, blocks);
      var i := 0;
      while i < |polls|
        invariant 0 <= i <= |polls| && Valid() && taken == old(taken) && |sent| == k + 1
                  && sent[k] == Command(id, opcode, lba, blocks)
        invariant id == IdOf(k) && Extends(old(log), log)
        invariant idle ==> log == old(log) && media == old(media) && Answered(polls[i..]) == Answered(polls)
        invariant idle ==>
                    FirstAnswer(polls[i..], Doable(media, blockSize, sent[k]))
                    == FirstAnswer(polls, Doable(old(media), blockSize, sent[k]))
      {
        if polls[i].post { Post(polls[i].fail); }
        SameId(taken, k);
        assert |log| > taken ==> log[taken].id == IdOf(taken);
        code := Look(id);
        if code != 1 { return; }
        if polls[i].fatal { return -1; }
        assert polls[i..][1..] == polls[i + 1..];
        i := i + 1;
      }
      return -1;
    }

    // Copy the chunk into the data page; the buffer stays.
    method Load(buffer: array<Byte>, at: nat, size: nat)
      requires at + size <= buffer.Length && size <= 4096
      modifies `media
      ensures media == old(media).(page := media.page) && media.page[..size] == buffer[at..at + size]
    {
      for i := 0 to size
        invariant media == old(media).(page := media.page) && media.page[..i] == buffer[at..at + i]
      {
        media := media.(page := media.page[i := buffer[at + i]]);
      }
    }

    // Copy the chunk out of the data page.
    method Store(buffer: array<Byte>, at: nat, size: nat)
      requires at + size <= buffer.Length && size <= 4096
      modifies buffer
      ensures Overlaid(old(buffer[..]), buffer[..], at, media.page[..size])
    {
      ghost var was := buffer[..];
      for i := 0 to size
        invariant buffer[at..at + i] == media.page[..i] && buffer[..at] == was[..at]
                  && buffer[at + i..] == was[at + i..]
      {
        buffer[at + i] := media.page[i];
        assert buffer[at..at + i + 1] == buffer[at..at + i] + [buffer[at + i]];
        assert media.page[..i + 1] == media.page[..i] + [media.page[i]];
      }
      assert buffer[..] == buffer[..at] + buffer[at..at + size] + buffer[at + size..];
    }

    // One chunk of a read, after the chunks before it.
    method ReadChunk(lba: nat, chunk: nat, from: nat, buffer: array<Byte>, at: nat, end: nat, polls: seq<Poll>,
                     ghost was: seq<Byte>, ghost idle: bool)
      returns (code: int)
      requires Valid() && end == at + Size(blockSize, chunk) <= at + 4096 && from + at == Size(blockSize, lba)
               && end <= buffer.Length
      requires idle ==> Idle() && ReadTo(media.disk, was, buffer[..], from, at)
      modifies `media, `log, `nextId, `tail, `sent, `head, `phase, `taken, sq, cq, buffer
      ensures Valid() && (code == 0 || code == -1)
      ensures old(Blocked()) ==> code == -1 && buffer[..] == old(buffer[..])
      ensures idle ==> && media.disk == old(media.disk) && (Idle() <==> Answered(polls))
                       && code == FirstAnswer(polls, from + end <= |media.disk|)
      ensures idle ==>
                ReadTo(media.disk, was, buffer[..], from, if code == 0 then end else at) && (code == 0 ==> Idle())
    {
      ghost var before, mid := media, buffer[..];
      code := Submit(Read, lba, chunk, polls);
      if code != 0 { return; }
      Store(buffer, at, end - at);
      if idle { ReadMore(before, was, mid, buffer[..], from, at, end, blockSize, Command(0, Read, lba, chunk)); }
    }

    // One chunk of a write, after the chunks before it.
    method WriteChunk(lba: nat, chunk: nat, from: nat, buffer: array<Byte>, at: nat, end: nat, polls: seq<Poll>,
                      ghost disk: seq<Byte>, ghost idle: bool)
      returns (code: int)
      requires Valid() && end == at + Size(blockSize, chunk) <= at + 4096 && from + at == Size(blockSize, lba)
               && end <= buffer.Length
      requires idle ==> Idle() && WrittenTo(disk, media.disk, from, buffer[..], at)
      modifies `media, `log, `nextId, `tail, `sent, `head, `phase, `taken, sq, cq
      ensures Valid() && (code == 0 || code == -1)
      ensures old(Blocked()) ==> code == -1
      ensures idle ==> (Idle() <==> Answered(polls)) && code == FirstAnswer(polls, from + end <= |disk|)
      ensures idle ==>
                WrittenTo(disk, media.disk, from, buffer[..], if code == 0 then end else at) && (code == 0 ==> Idle())
    {
      Load(buffer, at, end - at);
      ghost var before := media;
      code := Submit(Write, lba, chunk, polls);
      if idle && code == 0 {
        WriteMore(disk, before, from, buffer[..], at, end, blockSize, Command(0, Write, lba, chunk));
      }
    }

    /** The chunks of a read: a data page at a time, in order. */
    method ReadBlocks(lba: nat, count: nat, buffer: array<Byte>, schedule: nat -> seq<Poll>) returns (code: int)
      requires Valid() && Size(blockSize, count) <= buffer.Length
      modifies `media, `log, `nextId, `tail, `sent, `head, `phase, `taken, sq, cq, buffer
      ensures Valid() && (code == 0 || code == -1)
      ensures old(Blocked()) && count > 0 ==> code == -1 && buffer[..] == old(buffer[..])
      ensures old(Idle()) ==> media.disk == old(media.disk) && (code == 0 || AllAnswered(schedule) ==> Idle())
      ensures old(Idle()) && code == 0 ==>
                ReadTo(media.disk, old(buffer[..]), buffer[..], Size(blockSize, lba), Size(blockSize, count))
                    && (count > 0 ==> Size(blockSize, count) > 0)
      ensures old(Idle()) && Size(blockSize, lba) + Size(blockSize, count) <= |media.disk| && AllGood(schedule) ==>
                code == 0
    {
      var from := Size(blockSize, lba);
      var maxBlocks := PageBlocks(blockSize);
      ghost var was, idle, blocked := buffer[..], Idle(), Blocked();
      var done, at, n := 0, 0, 0;
      while done < count
        invariant 0 <= done <= count && at == Size(blockSize, done) <= Size(blockSize, count) && Valid()
                  && (done > 0 ==> at > 0)
        invariant blocked ==> done == 0 && Blocked() && buffer[..] == was
        invariant idle ==> Idle() && media.disk == old(media.disk) && ReadTo(media.disk, was, buffer[..], from, at)
        decreases count - done
      {
        var chunk := if count - done < maxBlocks then count - done else maxBlocks;
        var bytes := Size(blockSize, chunk);
        var next := done + chunk;
        ChunkSizes(blockSize, lba, count, done, chunk, next, maxBlocks);
        var end := at + bytes;
        code := ReadChunk(lba + done, chunk, from, buffer, at, end, schedule(n), was, idle);
        if code != 0 { return -1; }
        done, at, n := next, end, n + 1;
      }
      return 0;
    }

    /** The chunks of a write. */
    method WriteBlocks(lba: nat, count: nat, buffer: array<Byte>, schedule: nat -> seq<Poll>) returns (code: int)
      requires Valid() && Size(blockSize, count) <= buffer.Length
      modifies `media, `log, `nextId, `tail, `sent, `head, `phase, `taken, sq, cq
      ensures Valid() && (code == 0 || code == -1)
      ensures old(Blocked()) && count > 0 ==> code == -1
      ensures old(Idle()) ==> code == 0 || AllAnswered(schedule) ==> Idle()
      ensures old(Idle()) ==>
                Written(old(media.disk), media.disk, Size(blockSize, lba), buffer[..], Size(blockSize, count), code)
                && (count > 0 ==> Size(blockSize, count) > 0)
      ensures old(Idle()) && Size(blockSize, lba) + Size(blockSize, count) <= |media.disk| && AllGood(schedule) ==>
                code == 0
    {
      var from := Size(blockSize, lba);
      var maxBlocks := PageBlocks(blockSize);
      PatchedNone(media.disk, from, buffer[..]);
      ghost var disk, idle, blocked := media.disk, Idle(), Blocked();
      var done, at, n := 0, 0, 0;
      while done < count
        invariant 0 <= done <= count && at == Size(blockSize, done) <= Size(blockSize, count) && Valid()
                  && (done > 0 ==> at > 0)
        invariant blocked ==> done == 0 && Blocked()
        invariant idle ==> Idle() && WrittenTo(disk, media.disk, from, buffer[..], at)
        decreases count - done
      {
        var chunk := if count - done < maxBlocks then count - done else maxBlocks;
        var bytes := Size(blockSize, chunk);
        var next := done + chunk;
        ChunkSizes(blockSize, lba, count, done, chunk, next, maxBlocks);
        var end := at + bytes;
        code := WriteChunk(lba + done, chunk, from, buffer, at, end, schedule(n), disk, idle);
        if code != 0 { return -1; }
        done, at, n := next, end, n + 1;
      }
      return 0;
    }

    /** Move `count` blocks from block `lba` on between disk and buffer (transfer). On an idle queue: a read that
        succeeds fills the buffer with exactly those blocks in order and changes nothing else; a write that succeeds
        changes exactly those blocks; a write that fails has changed a leading part of them. When the device answers
        every command the queue is idle again, and when every answer is success so is the transfer. With commands
        outstanding the transfer fails and leaves the buffer alone, unless their number is a multiple of 65535. */
    method Transfer(known: bool, lba: nat, count: nat, buffer: array<Byte>, write: bool, schedule: nat -> seq<Poll>)
      returns (code: int)
      requires Valid() && Size(blockSize, count) <= buffer.Length
      modifies `media, `log, `nextId, `tail, `sent, `head, `phase, `taken, sq, cq, buffer
      ensures Valid() && (code == 0 || code == -1) && (code == 0 ==> known && count > 0)
      ensures old(Blocked()) ==> code == -1 && buffer[..] == old(buffer[..])
      ensures write ==> buffer[..] == old(buffer[..])
      ensures old(Idle()) ==> code == 0 || AllAnswered(schedule) ==> Idle()
      ensures old(Idle()) && code == 0 ==> Size(blockSize, lba) + Size(blockSize, count) <= |media.disk|
      ensures old(Idle()) && write ==>
                Written(old(media.disk), media.disk, Size(blockSize, lba), buffer[..], Size(blockSize, count), code)
      ensures old(Idle()) && !write ==> media.disk == old(media.disk)
      ensures old(Idle()) && !write && code == 0 ==>
                ReadTo(media.disk, old(buffer[..]), buffer[..], Size(blockSize, lba), Size(blockSize, count))
      ensures old(Idle()) && AllGood(schedule) && known && count > 0
              && Size(blockSize, lba) + Size(blockSize, count) <= |media.disk| ==>
                code == 0
    {
      if !known || count == 0 {
        PatchedNone(media.disk, Size(blockSize, lba), buffer[..]);
        return -1;
      }
      if write {
        code := WriteBlocks(lba, count, buffer, schedule);
      } else {
        code := ReadBlocks(lba, count, buffer, schedule);
      }
    }
  }

  // ---------------------------------------------------------------- runs of commands

  /** A command to submit, with what happens before each of its polls. */
  datatype Job = Job(opcode: Opcode, lba: nat, blocks: nat, polls: seq<Poll>)

  /** The result a job deserves on its own. */
  function Deserved(m: Media, bs: nat, job: Job): int {
    FirstAnswer(job.polls, Doable(m, bs, Command(0, job.opcode, job.lba, job.blocks)))
  }

  /** The disk and the data page after the first `n` jobs. */
  function MediaAfter(m: Media, bs: nat, jobs: seq<Job>, n: nat): Media
    requires n <= |jobs|
  {
    if n == 0 then m
    else
      var before, job := MediaAfter(m, bs, jobs, n - 1), jobs[n - 1];
      if Deserved(before, bs, job) == 0 then Executed(before, bs, Command(0, job.opcode, job.lba, job.blocks))
      else before
  }

  /** The device answers the first `n` jobs. */
  ghost predicate AnsweredTo(jobs: seq<Job>, n: nat) { forall i :: 0 <= i < n <= |jobs| ==> Answered(jobs[i].polls) }

  /** The first job that is not answered is `u`. */
  ghost predicate Missed(jobs: seq<Job>, u: nat) { u < |jobs| && AnsweredTo(jobs, u) && !Answered(jobs[u].polls) }

  /** The results of the first `n` jobs are their own and agree with the status the device posted from entry `k` on. */
  ghost predicate OwnResults(m: Media, bs: nat, jobs: seq<Job>, codes: seq<int>, log: seq<Completion>, k: nat, n: nat) {
    n <= |codes| && n <= |jobs| && k + n <= |log|
        && forall i :: 0 <= i < n ==> OwnResult(m, bs, jobs, codes[i], log[k + i], i)
  }

  predicate OwnResult(m: Media, bs: nat, jobs: seq<Job>, code: int, entry: Completion, i: nat)
    requires i < |jobs|
  {
    code == Deserved(MediaAfter(m, bs, jobs, i), bs, jobs[i]) && (code == 0 <==> entry.status == 0)
  }

  // The jobs before the first one the device does not answer.
  method SubmitAnswered(c: Controller, jobs: seq<Job>) returns (codes: seq<int>)
    requires c.Valid() && c.Idle()
    modifies c, c.sq, c.cq
    ensures c.Valid() && c.Idle() && |codes| <= |jobs| && AnsweredTo(jobs, |codes|)
    ensures |codes| < |jobs| ==> !Answered(jobs[|codes|].polls)
    ensures c.media == MediaAfter(old(c.media), c.blockSize, jobs, |codes|)
    ensures Extends(old(c.log), c.log)
    ensures OwnResults(old(c.media), c.blockSize, jobs, codes, c.log, |old(c.log)|, |codes|)
  {
    codes := [];
    ghost var k := |c.log|;
    var n := 0;
    while n < |jobs| && Answered(jobs[n].polls)
      invariant 0 <= n == |codes| <= |jobs| && c.Valid() && c.Idle() && AnsweredTo(jobs, n) && |c.log| == k + n
      invariant c.media == MediaAfter(old(c.media), c.blockSize, jobs, n) && Extends(old(c.log), c.log)
      invariant OwnResults(old(c.media), c.blockSize, jobs, codes, c.log, k, n)
    {
      ghost var log, results := c.log, codes;
      var code := c.Submit(jobs[n].opcode, jobs[n].lba, jobs[n].blocks, jobs[n].polls);
      codes := codes + [code];
      MoreResults(old(c.media), c.blockSize, jobs, results, log, k, code, c.log);
      ExtendsOn(old(c.log), log, c.log);
      n := n + 1;
    }
  }

  lemma MoreResults(m: Media, bs: nat, jobs: seq<Job>, codes: seq<int>, log: seq<Completion>, k: nat, code: int,
                    log': seq<Completion>)
    requires OwnResults(m, bs, jobs, codes, log, k, |codes|) && |codes| < |jobs| && Extends(log, log')
             && |log| == k + |codes| < |log'|
    requires OwnResult(m, bs, jobs, code, log'[k + |codes|], |codes|)
    ensures OwnResults(m, bs, jobs, codes + [code], log', k, |codes| + 1)
  {
    assert forall i :: 0 <= i < |log| ==> log'[i] == log'[..|log|][i] == log[i];
  }

  // A job behind others that are not answered yet.
  method SubmitBehind(c: Controller, job: Job) returns (code: int)
    requires c.Valid()
    modifies c, c.sq, c.cq
    ensures c.Valid() && |c.sent| == |old(c.sent)| + 1 && Extends(old(c.log), c.log)
    ensures 0 < |old(c.sent)| - old(c.taken) < 65535 ==> code == -1 && c.taken == old(c.taken)
  {
    code := c.Submit(job.opcode, job.lba, job.blocks, job.polls);
  }

  // The jobs from number `u` on, which the device does not answer.
  method SubmitMissed(c: Controller, jobs: seq<Job>, u: nat) returns (codes: seq<int>)
    requires c.Valid() && c.Idle() && u < |jobs| && !Answered(jobs[u].polls)
    modifies c, c.sq, c.cq
    ensures c.Valid() && |codes| == |jobs| - u && Extends(old(c.log), c.log)
    ensures codes[0] == Deserved(old(c.media), c.blockSize, jobs[u])
    ensures forall i :: 0 <= i < |codes| && i < 65535 ==> codes[i] == -1
  {
    var first := c.Submit(jobs[u].opcode, jobs[u].lba, jobs[u].blocks, jobs[u].polls);
    MissedFails(jobs[u].polls,
                Doable(old(c.media), c.blockSize, Command(0, jobs[u].opcode, jobs[u].lba, jobs[u].blocks)));
    codes := [first];
    for n := u + 1 to |jobs|
      invariant c.Valid() && |codes| == n - u && Extends(old(c.log), c.log) && codes[0] == first
      invariant n - u <= 65535 ==> |c.sent| - c.taken == n - u
      invariant forall i :: 0 <= i < |codes| && i < 65535 ==> codes[i] == -1
    {
      ghost var log := c.log;
      var code := SubmitBehind(c, jobs[n]);
      ExtendsOn(old(c.log), log, c.log);
      codes := codes + [code];
    }
  }

  lemma {:induction false} MissedFails(polls: seq<Poll>, doable: bool)
    requires !Answered(polls)
    ensures FirstAnswer(polls, doable) == -1
  {
    if polls != [] && !polls[0].fatal { MissedFails(polls[1..], doable); }
  }

  /** Any number of commands on an idle queue. As long as the device answers, every result is the command's own, on the
      disk as the commands before left it, and agrees with the status the device posted for it; once an answer is
      missed, that command and the next 65534 fail. */
  method SubmitAll(c: Controller, jobs: seq<Job>) returns (codes: seq<int>)
    requires c.Valid() && c.Idle()
    modifies c, c.sq, c.cq
    ensures c.Valid() && |codes| == |jobs| && Extends(old(c.log), c.log)
    ensures forall n: nat :: n <= |jobs| && AnsweredTo(jobs, n) ==>
              OwnResults(old(c.media), c.blockSize, jobs, codes, c.log, |old(c.log)|, n)
    ensures AnsweredTo(jobs, |jobs|) ==> c.Idle() && c.media == MediaAfter(old(c.media), c.blockSize, jobs, |jobs|)
    ensures forall u: nat, i :: Missed(jobs, u) && u <= i < |jobs| && i < u + 65535 ==> codes[i] == -1
  {
    codes := SubmitAnswered(c, jobs);
    ghost var u, log := |codes|, c.log;
    if |codes| < |jobs| {
      var more := SubmitMissed(c, jobs, |codes|);
      codes := codes + more;
      assert forall i :: 0 <= i < |log| ==> c.log[i] == c.log[..|log|][i] == log[i];
      assert forall i :: u <= i < |jobs| ==> codes[i] == more[i - u];
    }
    FirstMissed(jobs, u);
  }

  lemma FirstMissed(jobs: seq<Job>, u: nat)
    requires u <= |jobs| && AnsweredTo(jobs, u) && (u < |jobs| ==> !Answered(jobs[u].polls))
    ensures forall n: nat :: n <= |jobs| && AnsweredTo(jobs, n) ==> n <= u
    ensures forall n: nat :: Missed(jobs, n) ==> n == u
  {
    forall n: nat | n <= |jobs| && AnsweredTo(jobs, n) ensures n <= u {}
  }

  /** The first `n` bytes of the buffer are those of the disk from `from` on, the others are as they were. */
  ghost predicate ReadTo(disk: seq<Byte>, was: seq<Byte>, now: seq<Byte>, from: nat, n: nat) {
    && n <= |now| == |was| && (n > 0 ==> from + n <= |disk|)
    && now[..n] == Piece(disk, from, n) && now[n..] == was[n..]
  }

  /** `now` is `was` with `data` at `at`. */
  ghost predicate Overlaid(was: seq<Byte>, now: seq<Byte>, at: nat, data: seq<Byte>) {
    at + |data| <= |now| == |was| && now == was[..at] + data + was[at + |data|..]
  }

  lemma ReadMore(m: Media, was: seq<Byte>, mid: seq<Byte>, now: seq<Byte>, from: nat, at: nat, end: nat, bs: nat,
                 c: Command)
    requires ReadTo(m.disk, was, mid, from, at) && c.opcode == Read && Size(bs, c.lba) == from + at
    requires at <= end <= |mid| && end == at + Size(bs, c.blocks) <= at + 4096 && Doable(m, bs, c)
    requires Overlaid(mid, now, at, Executed(m, bs, c).page[..end - at])
    ensures ReadTo(m.disk, was, now, from, end)
  {
    var piece := m.disk[from + at..from + end];
    assert Executed(m, bs, c).page[..end - at] == piece;
    assert now[..end] == mid[..at] + piece;
    assert now[end..] == mid[at..][end - at..] && was[end..] == was[at..][end - at..];
  }

  /** The disk after a write of the first `n` bytes. */
  ghost predicate WrittenTo(disk: seq<Byte>, now: seq<Byte>, from: nat, data: seq<Byte>, n: nat) {
    n <= |data| && (n > 0 ==> from + n <= |disk|) && now == Patched(disk, from, data[..n])
  }

  lemma WriteMore(disk: seq<Byte>, m: Media, from: nat, data: seq<Byte>, at: nat, end: nat, bs: nat, c: Command)
    requires WrittenTo(disk, m.disk, from, data, at) && c.opcode == Write && Size(bs, c.lba) == from + at
    requires at <= end <= |data| && end == at + Size(bs, c.blocks) <= at + 4096 && Doable(m, bs, c)
    requires m.page[..end - at] == data[at..end]
    ensures WrittenTo(disk, Executed(m, bs, c).disk, from, data, end)
  {
    var piece := data[at..end];
    assert Size(bs, c.blocks) == |piece| && m.page[..|piece|] == piece;
    assert Executed(m, bs, c).disk == m.disk[..from + at] + piece + m.disk[from + at + |piece|..];
    PatchedTwice(disk, from, data, at, end - at);
  }

  /** The bytes of the disk from `from` on. */
  function Piece(disk: seq<Byte>, from: nat, n: nat): seq<Byte> {
    if from + n <= |disk| then disk[from..from + n] else []
  }

  /** The disk after a write of `size` bytes: done on success, a leading part of it on failure. */
  ghost predicate Written(disk: seq<Byte>, disk': seq<Byte>, from: nat, data: seq<Byte>, size: nat, code: int) {
    exists part: nat :: part <= size && WrittenTo(disk, disk', from, data, part) && (code == 0 ==> part == size)
  }

  lemma ChunkSizes(bs: nat, lba: nat, count: nat, done: nat, chunk: nat, next: nat, most: nat)
    requires 0 < bs && next == done + chunk <= count && 0 < chunk <= most && Size(bs, most) <= 4096
    ensures Size(bs, lba + done) == Size(bs, lba) + Size(bs, done)
    ensures Size(bs, next) == Size(bs, done) + Size(bs, chunk) <= Size(bs, count)
    ensures 0 < Size(bs, chunk) <= 4096
  {
    SizeAdds(bs, lba, done);
    SizeAdds(bs, done, chunk);
    SizeAdds(bs, done + chunk, count - done - chunk);
    SizeAdds(bs, chunk, most - chunk);
  }

  /** How many blocks fit the data page. */
  method PageBlocks(bs: nat) returns (most: nat)
    requires 0 < bs <= 4096
    ensures most > 0 && Size(bs, most) <= 4096 < Size(bs, most) + bs
  {
    most := 4096 / bs;
    SizeTimes(bs, most);
  }

  lemma PatchedNone(disk: seq<Byte>, from: nat, data: seq<Byte>)
    ensures Patched(disk, from, data[..0]) == disk && WrittenTo(disk, disk, from, data, 0)
  {}

  lemma Cut(a: seq<Byte>, b: seq<Byte>, c: seq<Byte>)
    ensures (a + b + c)[..|a|] == a && (a + b + c)[|a| + |b|..] == c
  {}

  lemma PatchedTwice(disk: seq<Byte>, from: nat, data: seq<Byte>, at: nat, n: nat)
    requires at + n <= |data| && from + at + n <= |disk|
    ensures Patched(Patched(disk, from, data[..at]), from + at, data[at..at + n]) == Patched(disk, from, data[..at + n])
  {
    var a, b, c := disk[..from], data[..at], data[at..at + n];
    var over, rest := disk[from + at..from + at + n], disk[from + at + n..];
    assert disk[from + at..] == over + rest;
    assert Patched(disk, from, b) == (a + b) + over + rest;
    Cut(a + b, over, rest);
    assert (a + b) + c == a + (b + c) && b + c == data[..at + n];
  }

  /** The disk with `data` written at byte `from`. */
  function Patched(disk: seq<Byte>, from: nat, data: seq<Byte>): (r: seq<Byte>)
    ensures |r| == |disk|
  {
    if from + |data| <= |disk| then disk[..from] + data + disk[from + |data|..] else disk
  }

  /** The device answers a single outstanding command before it reports a fatal error. */
  predicate Answered(polls: seq<Poll>) {
    polls != [] && (polls[0].post || (!polls[0].fatal && Answered(polls[1..])))
  }

  ghost predicate AllAnswered(schedule: nat -> seq<Poll>) { forall n :: Answered(schedule(n)) }

  /** The device answers every command with success. */
  ghost predicate AllGood(schedule: nat -> seq<Poll>) { forall n :: FirstAnswer(schedule(n), true) == 0 }

  /** What the device's first answer to a single outstanding command decides; -1 when it never answers. */
  function FirstAnswer(polls: seq<Poll>, doable: bool): (code: int)
    ensures code == 0 || code == -1
  {
    if polls == [] then -1
    else if polls[0].post then (if !polls[0].fail && doable then 0 else -1)
    else if polls[0].fatal then -1
    else FirstAnswer(polls[1..], doable)
  }
}
