/** An ATA drive as the host sees it through its ports (the PIO data-in and data-out protocols, clause
    9 of ATA/ATAPI-6): how long it is busy and whether a command fails is arbitrary, and it ignores
    the command register while BSY or DRQ is set. */
module AtaDrive {
  newtype Word = x: int | 0 <= x < 65536

  const WORDS := 256

  datatype Command = Read | Write | Flush | Identify | Commit

  /** DRQ is set in DataIn and DataOut, and in Failed if `drq`. A failed command sets DF or ERR. */
  datatype Phase = Idle | Busy | DataIn | DataOut | Failed(drq: bool, df: bool)

  /** How the storing of a received sector will turn out: done, failed, or never finished. */
  datatype Fate = Good | Bad | Hold

  /** `sectors` is what reads return and `stable` what survives a power cut. `lo`, `mid`, `hi` and
      `top` are the address registers, `lba` the address latched by the last command. `buffer` is
      the sector being transferred, `index` the words read from it so far. */
  datatype Drive = Drive(sectors: seq<seq<Word>>, stable: seq<seq<Word>>, identity: seq<Word>, dead: bool, phase: Phase,
                         cmd: Command, lba: nat, lo: nat, mid: nat, hi: nat, top: nat, buffer: seq<Word>, index: nat,
                           fate: Fate)

  /** What the status register shows: nothing there (0x00 or 0xFF), or its bits. */
  datatype Status = Gone | Bits(bsy: bool, drq: bool, err: bool, df: bool)

  /** Everything the drive is free to decide. */
  datatype Choice = Choice(done: bool, ok: bool, drq: bool, err: bool, df: bool, die: bool, fate: Fate)

  /** The choices of a drive that answers at once and without errors. */
  const PROMPT := Choice(true, true, false, false, false, false, Good)

  predicate HasDrq(d: Drive)
  {
    d.phase == DataIn || d.phase == DataOut || (d.phase.Failed? && d.phase.drq)
  }

  ghost predicate Valid(d: Drive)
  {
    && |d.stable| == |d.sectors| && |d.identity| == WORDS
    && (forall i :: 0 <= i < |d.sectors| ==> |d.sectors[i]| == WORDS && |d.stable[i]| == WORDS)
    && (d.phase == DataIn ==> |d.buffer| == WORDS && d.index < WORDS)
    && (d.phase == DataOut ==> |d.buffer| < WORDS && d.lba < |d.sectors|)
    && (d.phase.Failed? ==> d.index < WORDS)
    && (d.phase == Busy && d.cmd == Commit ==> d.lba < |d.sectors|)
  }

  /** The command in progress comes to an end, or to its data phase. */
  function Complete(d: Drive, c: Choice): Drive
  {
    var failed := d.(phase := Failed(c.drq, c.df), index := 0);
    match d.cmd
    case Read => if c.ok && d.lba < |d.sectors| then d.(phase := DataIn, buffer := d.sectors[d.lba], index := 0)
      else failed
    case Identify => if c.ok then d.(phase := DataIn, buffer := d.identity, index := 0) else failed
    case Write => if c.ok && d.lba < |d.sectors| then d.(phase := DataOut, buffer := []) else failed
    case Flush => if c.ok then d.(phase := Idle, stable := d.sectors)
                  else failed.(stable := if c.err then d.sectors else d.stable)
    case Commit =>
      match d.fate
      case Good => d.(phase := Idle)
      case Bad => d.(phase := Failed(false, c.df), index := 0)
      case Hold => d.(phase := DataOut, buffer := [])
  }

  /** Reading the status register. */
  function ReadStatus(d: Drive, c: Choice): (Drive, Status)
  {
    if d.dead then (d, Gone)
    else if d.phase == Busy && !c.done then (d, Bits(true, c.drq, c.err, c.df))
    else
      var d' := if d.phase == Busy then Complete(d, c) else d;
      (d', Bits(false, HasDrq(d'), d'.phase.Failed? && !d'.phase.df, d'.phase.Failed? && d'.phase.df))
  }

  /** Writing the address registers, which a busy drive ignores. */
  function SetAddress(d: Drive, lo: nat, mid: nat, hi: nat, top: nat): Drive
  {
    if d.dead || d.phase == Busy then d else d.(lo := lo, mid := mid, hi := hi, top := top)
  }

  function Latched(d: Drive): nat
  {
    d.lo + 0x100 * d.mid + 0x1_0000 * d.hi + 0x100_0000 * d.top
  }

  /** Writing the command register. */
  function Issue(d: Drive, cmd: Command, c: Choice): Drive
  {
    if d.dead || d.phase == Busy || HasDrq(d) then d
    else d.(phase := Busy, cmd := cmd, lba := Latched(d), dead := c.die)
  }

  /** Reading the data register. */
  function ReadData(d: Drive): (Drive, Word)
    requires Valid(d)
  {
    if d.dead then (d, 0xFFFF)
    else if d.phase == DataIn then
      (if d.index + 1 == WORDS then d.(phase := Idle) else d.(index := d.index + 1), d.buffer[d.index])
    else if d.phase.Failed? && d.phase.drq then
      (if d.index + 1 == WORDS then d.(phase := Idle) else d.(index := d.index + 1), 0xDEAD)
    else (d, 0)
  }

  /** Writing the data register. With the last word the drive takes the sector; if storing it fails,
      the sector may have changed or not. */
  function WriteData(d: Drive, w: Word, c: Choice): Drive
    requires Valid(d)
  {
    if d.dead || d.phase != DataOut then d
    else if |d.buffer| + 1 < WORDS then d.(buffer := d.buffer + [w])
    else
      var sector := d.buffer + [w];
      d.(phase := Busy, cmd := Commit, fate := c.fate, dead := c.die, buffer := [],
         sectors := if c.fate == Bad && c.err then d.sectors else d.sectors[d.lba := sector])
  }

  /** d' is d after some status reads. */
  ghost predicate Polled(d: Drive, d': Drive)
  {
    d' == d || (d.phase == Busy && !d.dead && exists c :: d' == Complete(d, c))
  }

  /** Status reads change no sector, and a drive that is not busy not at all. */
  lemma PolledFacts(d: Drive, d': Drive)
    requires Polled(d, d') && Valid(d)
    ensures Valid(d') && d'.sectors == d.sectors && d'.dead == d.dead && d'.lba == d.lba && d'.cmd == d.cmd
    ensures d.phase != Busy ==> d' == d
    ensures d'.stable == d.stable || d'.stable == d.sectors
  {
  }

  lemma CompleteIsNotBusy(d: Drive, c: Choice)
    ensures Complete(d, c).phase != Busy
  {
  }

  lemma PolledAgain(d: Drive, d1: Drive, c: Choice)
    requires Polled(d, d1)
    ensures Polled(d, ReadStatus(d1, c).0)
  {
    if d1 != d {
      var c0 :| d1 == Complete(d, c0);
      CompleteIsNotBusy(d, c0);
    }
  }

  /** A drive that answers at once, seen through the status register. */
  function Settled(d: Drive): Drive
  {
    if d.phase == Busy && !d.dead then Complete(d, PROMPT) else d
  }

  lemma PromptStatus(d: Drive)
    requires !d.dead
    ensures ReadStatus(d, PROMPT).0 == Settled(d) && ReadStatus(d, PROMPT).1.Bits? && !ReadStatus(d, PROMPT).1.bsy
    ensures Settled(d).phase != Busy && !Settled(d).dead && Settled(Settled(d)) == Settled(d)
    ensures ReadStatus(d, PROMPT).1.drq == HasDrq(Settled(d))
    ensures !Settled(d).phase.Failed? ==> !ReadStatus(d, PROMPT).1.err && !ReadStatus(d, PROMPT).1.df
  {
    CompleteIsNotBusy(d, PROMPT);
  }

  /** What the drain can clear: a live drive that does not want data. */
  predicate Recovers(d: Drive)
  {
    !d.dead && Settled(d).phase != DataOut
  }
}
