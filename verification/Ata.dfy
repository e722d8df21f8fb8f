/** The polling PIO driver (ata.c) against any drive of AtaDrive: what a call that reports success has
    done, and what no call ever does, whatever earlier calls left the drive in the middle of. */
module Ata {
  import opened Common
  import opened AtaDrive

  const POLL_LIMIT := 100000

  /** A sector's bytes as words, low byte first. */
  function Pack(bytes: seq<Byte>): (words: seq<Word>)
    requires |bytes| == 2 * WORDS
    ensures |words| == WORDS && forall i :: 0 <= i < WORDS ==>
            words[i] == bytes[2 * i] as Word + 256 * bytes[2 * i + 1] as Word
  {
    seq(WORDS, i requires 0 <= i < WORDS => bytes[2 * i] as Word + 256 * bytes[2 * i + 1] as Word)
  }

  /** The drive behind its ports; `c` is what it decided on that access. It decides freely unless it is
      prompt. */
  class Port {
    var d: Drive
    const prompt: bool

    constructor (drive: Drive, answers: bool)
      requires Valid(drive)
      ensures d == drive && prompt == answers
    {
      d, prompt := drive, answers;
    }

    /** inb(ATA_STATUS). */
    method Status() returns (st: Status, ghost c: Choice)
      modifies this
      ensures (d, st) == ReadStatus(old(d), c) && (prompt ==> c == PROMPT)
    {
      var any: Choice := *;
      if prompt {
        any := PROMPT;
      }
      c := any;
      var next := ReadStatus(d, any);
      d, st := next.0, next.1;
    }

    /** outb to the drive and LBA registers. */
    method Address(lba: nat)
      requires lba <= 0x0FFF_FFFF
      modifies this
      ensures d == SetAddress(old(d), lba % 256, lba / 256 % 256, lba / 256 / 256 % 256, lba / 256 / 256 / 256 % 16)
    {
      d := SetAddress(d, lba % 256, lba / 256 % 256, lba / 256 / 256 % 256, lba / 256 / 256 / 256 % 16);
    }

    /** outb(ATA_COMMAND, cmd). */
    method Command(cmd: Command) returns (ghost c: Choice)
      modifies this
      ensures d == Issue(old(d), cmd, c) && (prompt ==> c == PROMPT)
    {
      var any: Choice := *;
      if prompt {
        any := PROMPT;
      }
      c := any;
      d := Issue(d, cmd, any);
    }

    /** inw(ATA_DATA). */
    method In() returns (w: Word)
      requires Valid(d)
      modifies this
      ensures (d, w) == ReadData(old(d))
    {
      var next := ReadData(d);
      d, w := next.0, next.1;
    }

    /** outw(ATA_DATA, w). */
    method Out(w: Word) returns (ghost c: Choice)
      requires Valid(d)
      modifies this
      ensures d == WriteData(old(d), w, c) && (prompt ==> c == PROMPT)
    {
      var any: Choice := *;
      if prompt {
        any := PROMPT;
      }
      c := any;
      d := WriteData(d, w, any);
    }
  }

  lemma AddressRoundTrip(lba: nat)
    requires lba <= 0x0FFF_FFFF
    ensures lba ==
            lba % 256 + 0x100 * (lba / 256 % 256) + 0x1_0000 * (lba / 256 / 256 % 256) +
            0x100_0000 * (lba / 256 / 256 / 256 % 16)
  {
    var a := lba / 256;
    var b := a / 256;
    var c := b / 256;
    assert c % 16 == c;
  }

  /** The number of sectors in the identification data, words 60 and 61. */
  function Capacity(d: Drive): nat
    requires |d.identity| == WORDS
  {
    d.identity[60] as nat + 0x1_0000 * d.identity[61] as nat
  }

  /** The drive will take a command. */
  predicate Ready(d: Drive)
  {
    !d.dead && d.phase != Busy && !HasDrq(d)
  }

  class Driver {
    const port: Port
    var available: bool
    var sectorCount: nat
    var readCount: nat
    var writeCount: nat

    constructor (p: Port)
      ensures port == p && !available
    {
      port, available, sectorCount, readCount, writeCount := p, false, 0, 0, 0;
    }

    /** The driver takes requests for this sector. */
    predicate Usable(lba: nat)
      reads this
    {
      available && lba < sectorCount && lba <= 0x0FFF_FFFF
    }

    /** ata_wait_not_busy. */
    method WaitNotBusy() returns (ok: bool)
      requires Valid(port.d)
      modifies port
      ensures Valid(port.d) && Polled(old(port.d), port.d)
      ensures ok ==> !port.d.dead && port.d.phase != Busy
      ensures port.prompt && !old(port.d).dead ==> ok && port.d == Settled(old(port.d))
    {
      for i := 0 to POLL_LIMIT
        invariant Valid(port.d) && Polled(old(port.d), port.d)
        invariant port.prompt && !old(port.d).dead ==> i == 0 && port.d == old(port.d)
      {
        ghost var before := port.d;
        if port.prompt && !old(port.d).dead {
          PromptStatus(port.d);
        }
        var st, c := port.Status();
        PolledAgain(old(port.d), before, c);
        PolledFacts(old(port.d), port.d);
        if st.Gone? {
          return false;
        }
        if !st.bsy {
          return true;
        }
      }
      return false;
    }

    /** ata_wait_data. */
    method WaitData() returns (ok: bool)
      requires Valid(port.d)
      modifies port
      ensures Valid(port.d) && Polled(old(port.d), port.d)
      ensures ok ==> !port.d.dead && (port.d.phase == DataIn || port.d.phase == DataOut)
      ensures Answers(port.prompt, old(port.d)) ==> ok && port.d == Settled(old(port.d))
    {
      for i := 0 to POLL_LIMIT
        invariant Valid(port.d) && Polled(old(port.d), port.d)
        invariant Answers(port.prompt, old(port.d)) ==> i == 0 && port.d == old(port.d)
      {
        ghost var before := port.d;
        if Answers(port.prompt, old(port.d)) {
          PromptStatus(port.d);
        }
        var st, c := port.Status();
        PolledAgain(old(port.d), before, c);
        PolledFacts(old(port.d), port.d);
        if st.Gone? || st.err || st.df {
          return false;
        }
        if !st.bsy && st.drq {
          return true;
        }
      }
      return false;
    }

    /** The drain of ata_wait_idle: 256 words. */
    method Drain()
      requires Valid(port.d) && port.d.phase != Busy
      modifies port
      ensures Valid(port.d) && port.d.sectors == old(port.d).sectors && port.d.stable == old(port.d).stable &&
              port.d.phase != Busy
      ensures port.d.dead == old(port.d).dead
      ensures !old(port.d).dead && HasDrq(old(port.d)) && old(port.d).phase != DataOut ==> port.d.phase == Idle
    {
      for i := 0 to WORDS
        invariant Valid(port.d) && port.d.sectors == old(port.d).sectors && port.d.stable == old(port.d).stable
        invariant port.d.phase != Busy && port.d.dead == old(port.d).dead
        invariant !old(port.d).dead && HasDrq(old(port.d)) && old(port.d).phase != DataOut ==>
                  Drained(old(port.d), i, port.d)
      {
        var _ := port.In();
      }
    }

    /** ata_wait_idle. */
    method WaitIdle() returns (ok: bool)
      requires Valid(port.d)
      modifies port
      ensures Valid(port.d) && port.d.sectors == old(port.d).sectors
      ensures port.d.stable == old(port.d).stable || port.d.stable == old(port.d).sectors
      ensures ok ==> Ready(port.d)
      ensures port.prompt && Recovers(old(port.d)) ==> ok
    {
      ok := WaitNotBusy();
      PolledFacts(old(port.d), port.d);
      if !ok {
        return;
      }
      if port.prompt && Recovers(old(port.d)) {
        PromptStatus(old(port.d));
        PromptStatus(port.d);
      }
      var st, _ := port.Status();
      if st.Gone? || !st.drq {
        return;
      }
      Drain();
      ghost var drained := port.d;
      ok := WaitNotBusy();
      PolledFacts(drained, port.d);
      if !ok {
        return;
      }
      var again, _ := port.Status();
      ok := again.Gone? || !again.drq;
    }

    /** ata_install: the drive is usable exactly with the number of sectors it identifies itself with,
        unless that is 0 or `atapi` says that it showed another device's signature. */
    method Install(atapi: bool)
      requires Valid(port.d)
      modifies this, port
      ensures Valid(port.d) && port.d.sectors == old(port.d).sectors
      ensures available ==> sectorCount == Capacity(port.d) && sectorCount != 0 && !atapi
      ensures readCount == 0 && writeCount == 0
    {
      available, sectorCount, readCount, writeCount := false, 0, 0, 0;
      var ok := WaitIdle();
      if !ok {
        return;
      }
      ok := Probe();
      if !ok || atapi {
        return;
      }
      var words := ReceiveWords();
      sectorCount := words[60] as nat + 0x1_0000 * words[61] as nat;
      available := sectorCount != 0;
    }

    /** The transfer loop of ata_install. */
    method ReceiveWords() returns (words: seq<Word>)
      requires Valid(port.d) && !port.d.dead && port.d.phase == DataIn && port.d.index == 0
      modifies port
      ensures Valid(port.d) && port.d.sectors == old(port.d).sectors && port.d.identity == old(port.d).identity
      ensures words == old(port.d).buffer
    {
      ghost var d := port.d;
      words := [];
      for i := 0 to WORDS
        invariant Valid(port.d) && port.d == if i < WORDS then d.(index := i) else d.(phase := Idle, index := WORDS - 1)
        invariant words == d.buffer[..i]
      {
        var w := port.In();
        words := words + [w];
      }
    }

    /** The IDENTIFY command, up to its data phase. */
    method Probe() returns (ok: bool)
      requires Valid(port.d) && Ready(port.d)
      modifies port
      ensures Valid(port.d) && port.d.sectors == old(port.d).sectors && port.d.identity == old(port.d).identity
      ensures ok ==> !port.d.dead && port.d.phase == DataIn && port.d.buffer == port.d.identity && port.d.index == 0
    {
      port.Address(0);
      ghost var _ := port.Command(Identify);
      ghost var issued := port.d;
      ok := WaitNotBusy();
      PolledFacts(issued, port.d);
      if !ok {
        return;
      }
      ghost var answered := port.d;
      ok := WaitData();
      PolledFacts(answered, port.d);
    }

    /** Addresses sector lba and issues a command that takes data, to a drive that is ready. */
    method Begin(lba: nat, cmd: Command) returns (ok: bool)
      requires Valid(port.d) && Ready(port.d) && lba <= 0x0FFF_FFFF && (cmd == Read || cmd == Write)
      modifies port
      ensures Valid(port.d) && port.d.sectors == old(port.d).sectors && port.d.stable == old(port.d).stable
      ensures ok && cmd == Read ==> !port.d.dead && port.d.phase == DataIn && lba < |port.d.sectors| &&
                                    port.d.buffer == port.d.sectors[lba] && port.d.index == 0
      ensures ok && cmd == Write ==> !port.d.dead && port.d.phase == DataOut && port.d.lba == lba && port.d.buffer == []
      ensures port.prompt && lba < |port.d.sectors| ==> ok
    {
      AddressRoundTrip(lba);
      port.Address(lba);
      ghost var c := port.Command(cmd);
      ghost var issued := port.d;
      assert issued.phase == Busy && issued.cmd == cmd && issued.lba == lba;
      ok := WaitData();
      PolledFacts(issued, port.d);
    }

    /** The transfer loop of ata_read_sector. */
    method ReceiveSector(buffer: array<Byte>)
      requires Valid(port.d) && !port.d.dead && port.d.phase == DataIn && port.d.index == 0 &&
               buffer.Length == 2 * WORDS
      modifies port, buffer
      ensures Valid(port.d) && port.d.sectors == old(port.d).sectors && port.d.stable == old(port.d).stable
      ensures Pack(buffer[..]) == old(port.d).buffer && !port.d.dead && port.d.phase == Idle
    {
      ghost var d := port.d;
      for i := 0 to WORDS
        invariant Valid(port.d) && port.d == if i < WORDS then d.(index := i) else d.(phase := Idle, index := WORDS - 1)
        invariant forall j :: 0 <= j < i ==> d.buffer[j] == buffer[2 * j] as Word + 256 * buffer[2 * j + 1] as Word
      {
        var w := port.In();
        buffer[2 * i], buffer[2 * i + 1] := (w % 256) as Byte, (w / 256) as Byte;
      }
    }

    /** ata_read_sector. If it reports success the buffer is the sector; it changes no sector. Whatever
        an earlier call left behind, it succeeds on a prompt drive that does not want data. */
    method ReadSector(lba: nat, buffer: array<Byte>) returns (ok: bool)
      requires Valid(port.d) && buffer.Length == 2 * WORDS
      modifies port, buffer, this`readCount
      ensures Valid(port.d) && port.d.sectors == old(port.d).sectors
      ensures port.d.stable == old(port.d).stable || port.d.stable == old(port.d).sectors
      ensures ok ==> lba < |port.d.sectors| && Pack(buffer[..]) == port.d.sectors[lba]
      ensures !ok ==> buffer[..] == old(buffer[..])
      ensures port.prompt && Recovers(old(port.d)) && Usable(lba) && lba < |port.d.sectors| ==> ok && Recovers(port.d)
    {
      if !available || lba >= sectorCount || lba > 0x0FFF_FFFF {
        return false;
      }
      ok := WaitIdle();
      if !ok {
        return;
      }
      ok := Begin(lba, Read);
      if !ok {
        return;
      }
      ReceiveSector(buffer);
      readCount := readCount + 1;
    }

    /** The transfer loop of ata_write_sector. */
    method SendSector(buffer: array<Byte>)
      requires Valid(port.d) && !port.d.dead && port.d.phase == DataOut && port.d.buffer == [] &&
               buffer.Length == 2 * WORDS
      modifies port
      ensures Valid(port.d) && port.d.stable == old(port.d).stable && port.d.lba == old(port.d).lba &&
              port.d.phase == Busy && port.d.cmd == Commit
      ensures port.d.sectors == old(port.d).sectors ||
              port.d.sectors == old(port.d).sectors[port.d.lba := Pack(buffer[..])]
      ensures port.d.fate == Good ==> port.d.sectors == old(port.d).sectors[port.d.lba := Pack(buffer[..])]
      ensures port.prompt ==> port.d.fate == Good && !port.d.dead
    {
      ghost var d, words := port.d, Pack(buffer[..]);
      for i := 0 to WORDS
        invariant Valid(port.d) && (i < WORDS ==> port.d == d.(buffer := words[..i]))
        invariant i == WORDS ==> Taken(d, port.d, words)
        invariant port.prompt ==> !port.d.dead && (i == WORDS ==> port.d.fate == Good)
      {
        assert words[..i] + [words[i]] == words[..i + 1];
        var _ := port.Out(buffer[2 * i] as Word + 256 * buffer[2 * i + 1] as Word);
        assert words[..WORDS] == words;
      }
    }

    /** The status check of ata_write_sector: the drive has stored the sector. */
    method Stored() returns (ok: bool)
      requires Valid(port.d) && port.d.phase == Busy && port.d.cmd == Commit
      modifies port
      ensures Valid(port.d) && port.d.sectors == old(port.d).sectors && port.d.stable == old(port.d).stable
      ensures ok ==> Ready(port.d) && port.d.lba == old(port.d).lba && old(port.d).fate == Good
      ensures port.prompt && !old(port.d).dead && old(port.d).fate == Good ==> ok
    {
      ok := WaitNotBusy();
      PolledFacts(old(port.d), port.d);
      if !ok {
        return;
      }
      var st, _ := port.Status();
      ok := !st.Gone? && !st.err && !st.df && !st.drq;
    }

    /** The cache flush of ata_write_sector. */
    method FlushCache() returns (ok: bool)
      requires Valid(port.d) && Ready(port.d)
      modifies port
      ensures Valid(port.d) && port.d.sectors == old(port.d).sectors
      ensures port.d.stable == old(port.d).stable || port.d.stable == port.d.sectors
      ensures ok ==> port.d.stable == port.d.sectors
      ensures port.prompt ==> ok && Recovers(port.d)
    {
      ghost var _ := port.Command(Flush);
      ghost var issued := port.d;
      ok := WaitNotBusy();
      PolledFacts(issued, port.d);
      if !ok {
        return;
      }
      var st, _ := port.Status();
      ok := st.Gone? || !(st.err || st.df);
    }

    /** ata_write_sector. If it reports success the sector holds the data and has been flushed. It
        never changes another sector, and this one only to the data. */
    method WriteSector(lba: nat, buffer: array<Byte>) returns (ok: bool)
      requires Valid(port.d) && buffer.Length == 2 * WORDS
      modifies port, this`writeCount
      ensures Valid(port.d) && |port.d.sectors| == |old(port.d).sectors|
      ensures forall i :: 0 <= i < |port.d.sectors| && i != lba ==> port.d.sectors[i] == old(port.d).sectors[i]
      ensures lba < |port.d.sectors| ==>
              port.d.sectors[lba] == old(port.d).sectors[lba] || port.d.sectors[lba] == Pack(buffer[..])
      ensures port.d.stable == old(port.d).stable || port.d.stable == old(port.d).sectors ||
              port.d.stable == port.d.sectors
      ensures ok ==>
              lba < |port.d.sectors| && port.d.sectors[lba] == Pack(buffer[..]) && port.d.stable == port.d.sectors
      ensures port.prompt && Recovers(old(port.d)) && Usable(lba) && lba < |port.d.sectors| ==> ok && Recovers(port.d)
    {
      if !available || lba >= sectorCount || lba > 0x0FFF_FFFF {
        return false;
      }
      ok := WaitIdle();
      if !ok {
        return;
      }
      ok := Begin(lba, Write);
      if !ok {
        return;
      }
      SendSector(buffer);
      ok := Stored();
      if !ok {
        return;
      }
      ok := FlushCache();
      if ok {
        writeCount := writeCount + 1;
      }
    }
  }

  /** A prompt drive will ask for or offer data. */
  predicate Answers(prompt: bool, d: Drive)
  {
    prompt && !d.dead && (Settled(d).phase == DataIn || Settled(d).phase == DataOut)
  }

  /** After i words read from a drive that offers data, or the remains of a failed command. */
  ghost predicate Drained(d: Drive, i: nat, d': Drive)
  {
    d'.phase == Idle || (d.index + i < WORDS && d' == d.(index := d.index + i))
  }

  /** The drive has taken all words of a sector. */
  ghost predicate Taken(d: Drive, d': Drive, words: seq<Word>)
    requires d.lba < |d.sectors|
  {
    && d'.phase == Busy && d'.cmd == Commit && d'.lba == d.lba && d'.stable == d.stable
    && (d'.sectors == d.sectors || d'.sectors == d.sectors[d.lba := words])
    && (d'.fate == Good ==> d'.sectors == d.sectors[d.lba := words])
  }
}
